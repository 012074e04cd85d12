# OSDLP verified: COP-1, TC and TM data link services

A Dafny model of the Open Space Data Link Protocol library and proofs about it. The library implements
the CCSDS TC and TM space data link protocols (CCSDS 232.0-B-3 and 132.0-B-2) and the Communications
Operation Procedure-1 (CCSDS 232.1-B-2). Four parts are modelled, each in the form its source has, and
then joined:

- **The frame error control field** (`Crc.dfy`): the lookup table against the bit-serial shift register,
  and the detection of error bursts.
- **COP-1**: the receiving end FARM-1 (`Farm.dfy`); the sending end FOP-1 as an action table
  (`FopTable.dfy`) and as the procedures that follow it (`FopUnit.dfy`); its sliding window
  (`FopWindow.dfy`); its counters, timer and suspension (`FopLimits.dfy`); the closed system of both ends
  and two lossy channels (`ClosedLoop.dfy`), what gets through it (`Progress.dfy`, `Recovery.dfy`) and what
  ends it (`Reached.dfy`); how a session opens (`SessionOpening.dfy`); what the user is told
  (`FopNotices.dfy`); what reports, expiries, requests and directives mean, said without the action table
  (`FopMeaning.dfy`, `FopAnswers.dfy`); and what reaches the uplink (`FopUplink.dfy`).
- **TC**: frames as octets (`TcFrame.dfy`), the segmenting sender (`TcTransmit.dfy`), the reassembling
  receiver (`TcReceive.dfy`), the whole service over the closed loop (`TcService.dfy`) and over a channel of
  octets (`TcChannel.dfy`), and what type-A and type-B frames do to each other (`TcShared.dfy`).
- **TM**: frames as octets (`TmFrame.dfy`), multiplexing into fixed-length frames (`TmMux.dfy`,
  `TmSender.dfy`), extraction (`TmDemux.dfy`, `TmReceiver.dfy`), both ends together, with stuffing
  (`TmService.dfy`) and without (`TmPlain.dfy`), in runs that `TmRuns.dfy` sets up, the same in runs of any
  length with a receive queue that is emptied on the way (`TmStream.dfy`) and over a channel of octets
  (`TmChannel.dfy`), extraction after losses (`TmLoss.dfy`), what it makes of mixed frames
  (`TmSplice.dfy`), and what its results tell (`TmResults.dfy`).

The layout of both kinds of frames is stated bit by bit in `FrameBits.dfy`.

`RingBuffer.dfy` holds the queue behind the hooks; `Octets.dfy`, `Division.dfy`, `CopTypes.dfy`,
`TmTypes.dfy` and `TmFeed.dfy` hold shared vocabulary. The classes carry the fields of the source's
records; each method is proved to take the step of a specification function on the values of those
fields, and the theorems are about runs of these steps. `dafny verify dfyconfig.toml` checks everything.

## How the protocol runs are set up

A run of the closed loop starts with V(S) = NN(R) = V(R), empty channels and a window of at most 255,
and goes on after the session has ended. The sender's user keeps the rules of `FopWindow.Disciplined`
(header fields are left alone while a request waits, the window is not made smaller than what is
outstanding, no new session is opened over a suspended one, the lower layer rejects nothing while the
session is suspended); what happens otherwise is stated in `TcTransmit.WaitingRequestRelabelled`,
`FopWindow.WindowTestExact` and `FopLimits.RejectionSpoilsSuspended`. The receiver's user releases no buffer
in lockout. Nothing is asked of the channels except order, nor of the reports: that N(R) lies between NN(R)
and V(S) is proved. Responses of the lower layer are events of their own.

In the TC service theorems the sender is used through the service alone, so that all its frames are type-A
(`TcService.EventKeepsTypeA`), and it is called only while the session is open and no request waits
(`TcTransmit.EarlyCallForgets` says what becomes of other calls); the receive queue has any positive
capacity, and its user takes units and releases buffers at any time. On a channel that also carries type-B
frames the theorems fail (`TcShared.UnitAmongFrames`, `TcShared.WaitErrorIsReached`).

In the TM theorems the packets of a stuffed channel are longer than a frame header, shorter than the largest
unit, do not begin with the idle octet, and their length can be told from their first octets by the user's
hook; a frame holds at most 2045 data octets; and no more packets are given than have been taken from the
receive queue and fit it (`TmStream.dfy`; in `TmService.dfy` and `TmPlain.dfy` it has room for all).

## Where the code departs from its documentation or the standards

- FARM-1's window tests miss two places (`Farm.DispatchOnCircle`); in a session with K below the positive
  window width only one of them can be hit, and it can (`ClosedLoop.LockoutExactlyAtWrap`,
  `ClosedLoop.LockoutIsReachable`).
- The range test on N(R) lets every value through while the window does not wrap and rejects NN(R) when it
  does (`FopLimits.RangeTestExact`): within a session this only raises false alarms
  (`ClosedLoop.FalseAlarmExactlyWhenWrapped`, `ClosedLoop.FalseAlarmIsReachable`), with nothing outstanding it
  lets the transmission count run past its limit (`FopLimits.OvercountIsReached`).
- A purge leaves NN(R) where it was, so a session opened after an alert without Set V(R) or a new V(S) starts
  with counters that disagree (`SessionOpening.OpeningNeedsEqualCounters`,
  `SessionOpening.AlertLeavesCountersApart`).
- A full acknowledgement does not bring a retransmitting sender back to its active state, and its repetition
  ends the session: always from a retransmitting state, from the active one exactly if a waiting frame has
  since been sent with the number 255 (`FopLimits.RepeatedAcknowledgementExactly`,
  `Reached.RepeatedAcknowledgementIsReached`).
- The two services of a TC channel share one reassembly. Frames of one that arrive between the segments of a
  unit of the other, or right before it, may lose the unit or mix with it although all of them are accepted:
  a first segment that fits costs the segmented unit that follows; between segments all but an oversized
  unsegmented and an empty continuing one do harm (`TcShared.AmongOneOther`, `TcShared.UnitAmongFrames`,
  `TcShared.FrameLeavesAloneExactly`). A type-A frame that comes before the release drops a type-B unit under
  way even without being accepted (`TcShared.WaitErrorExactly`, `TcShared.WaitErrorIsReached`).
- A call of the segmenting sender that comes while a request waits forgets its place in the unit and puts its
  segment header on the waiting request (`TcTransmit.EarlyCallForgets`, `TcTransmit.WaitingRequestRelabelled`).
- A window made smaller than what is outstanding makes acknowledgements leave frames on the sent queue that
  NN(R) has passed (`FopLimits.SmallWindowForgets`).
- A rejection by the lower layer purges a suspended session, which can be resumed all the same
  (`FopLimits.RejectionSpoilsSuspended`).
- A report sent before a Set V(R) command arrives can open the session in its place
  (`SessionOpening.SetVrOverOldReports`).
- A report that acknowledges everything while no request waits is answered with whatever `signal` holds from
  before (`FopNotices.StaleAnswerExactly`); E101 in the initialising state with a command returns the code
  ACCEPT_DIR (`FopAnswers.AwaitedEffectAnswers`).
- A frame that comes again right after it was accepted, because its report was lost, locks the receiver out
  exactly if its number is 255 or the window width is below two (`Progress.SecondComing`,
  `Progress.LostReportLocksOut`).
- Initialisation accepts TC frames longer than 1024 octets, whose length field cannot hold their length
  (`TcFrame.LengthSurvivesExactly`).
- A segment answered with UNDEF_ERROR is transmitted all the same, but the call loses count of it
  (`TcTransmit.UndefinedExactly`, `TcTransmit.CallHandsOverPieces`, `Reached.UndefinedIsReached`).
- TM unpacking reads the version number as a truth value (`TmFrame.PrimaryRoundTrip`).
- The search for the end of the packets in a TM frame adds the frame header length to offsets within the
  data, and so lays a packet over a short one near the end (`TmMux.ResidueExactly`,
  `TmMux.ShortPacketIsOverwritten`).
- The TM receiver does not look at frame counts. When frames are lost it joins what is left of different
  packets, subject only to a length test (`TmSplice.DeliveredIsExplained`). With stuffing the end of one packet
  completes the beginning of another exactly if together they have the length the first announced
  (`TmSplice.SpliceExactly`); without, an end that does not is kept, and the next may complete it
  (`TmSplice.PlainForeignExactly`, `TmSplice.PlainMixtureExactly`).
- A packet given to a stuffing sender whose last queued frame holds idle data only is laid into that frame, whose
  first header pointer still says so; it is lost although the call succeeds
  (`TmService.IdleFrameSwallowsPacket`).
- A TM frame refused by the queue uses up a frame count (`TmSender.Sender.FillFrames`).
- A TM receiver without check values still compares, with whatever value the frame structure was left with,
  and takes in only the frames whose octets have that check value (`TmReceiver.WithoutCheckValuesExactly`,
  `TmReceiver.OneCheckValueGetsIn`).
- `enqueue_now` on a full queue overwrites the front, and `front` and `back` of a full queue return nothing
  (`RingBuffer.Queue.EnqueueNow`, `RingBuffer.Queue.Front`).

## Model

| member | source | states |
|---|---|---|
| `Crc.TableEntry` | src/osdlp_crc.c:23-56 | each of the 256 table constants is the bit-serial register (polynomial 0x1021) after its index has been shifted through |
| `Crc.TableStepFeedsOctet` | src/osdlp_crc.c:63 | one table step equals eight shifts of the bit-serial register, for every register value and octet |
| `Crc.CalcCrc` | src/osdlp_crc.c:58-66 | the table-driven loop returns, for every buffer and length, what the bit-serial register with preset 0xFFFF holds after all the bits |
| `Crc.CheckValueOfDigits` | src/osdlp_crc.c:58-66 | the check value of the nine digits "123456789" is 0x29B1, as listed for polynomial 0x1021 and preset 0xFFFF |
| `Crc.RegisterInjective` | src/osdlp_crc.c:62-64 | two different register states stay different whatever identical bits follow |
| `Crc.BurstChangesChecksum` | src/osdlp_crc.c:58-66 | two octet strings of any length that differ only within sixteen consecutive bits, at any bit position, have different check values |
| `Crc.CheckPassesIffZero` | src/osdlp_tm.c:140-150 | comparing the two trailing octets with the check value of the rest is the same as the check value of the whole being zero |
| `Crc.BurstIsDetected` | src/osdlp_tm.c:759-762 | a frame that passes the check never turns into another one that does by a burst of up to sixteen bits |
| `Crc.TwoOctetsAreDetected` | src/osdlp_tm.c:759-762 | in particular no corruption confined to two neighbouring octets passes the check |
| `Farm.DispatchOnCircle` | src/osdlp_cop.c:226-283 | for all V(R), N(S) and widths the tests of E1, E3, E4 and E5 select the region given by circular distance, except at exactly the stated places: the far edge of a positive window that wraps, N(S) = 255 at V(R) = 0, and for widths below two |
| `Farm.FarmUnit.constructor` | src/osdlp_cop.c:39-47 | preparation sets the state and the two half windows; V(R) and the flags are whatever the caller left in the record |
| `Farm.FarmUnit.Farm1` | src/osdlp_cop.c:252-336 | the whole FARM state and the verdict after any frame |
| `Farm.FarmUnit.E1` | src/osdlp_cop.c:62-79 | acceptance advances V(R) modulo 256 and clears the retransmit flag; a waiting receiver answers with an error, a locked out one discards |
| `Farm.FarmUnit.E2` | src/osdlp_cop.c:81-97 | a frame in sequence without room sends an open receiver into the wait state with both flags up |
| `Farm.FarmUnit.E5` | src/osdlp_cop.c:130-147 | a frame outside both windows locks the receiver out |
| `Farm.FarmUnit.E7` | src/osdlp_cop.c:170-197 | an unlock command opens the receiver from every state and is counted |
| `Farm.FarmUnit.E8` | src/osdlp_cop.c:199-224 | a Set V(R) command takes effect unless the receiver is locked out, and is counted in any case |
| `Farm.FarmUnit.BufferRelease` | src/osdlp_cop.c:49-60 | the whole state after a buffer release |
| `Farm.TypeAExactly` | src/osdlp_cop.c:62-285 | a type-A frame in any state: accepted if and only if it is next in sequence, there is room and the receiver is open; lockout, wait and retransmit flag each if and only if stated by circular distance, room and state; the retransmit flag of an open receiver goes up for a frame ahead of V(R) and comes down only by an acceptance |
| `Farm.TypeBExactly` | src/osdlp_cop.c:170-313 | a type-B frame in any state: data always accepted, a command if and only if it is one of the two known, counted, and with the effect on V(R), state and retransmit flag stated |
| `Farm.RunKeepsBooks` | src/osdlp_cop.c:50-336 | over every legal run the state and the three flags tell the same story, V(R) is the last value set plus the frames accepted since modulo 256, the FARM-B counter is its start plus the accepted type-B frames modulo 4, and the retransmit flag is up if and only if a frame is missing: one has come ahead of its turn or been refused for want of room, and nothing has been accepted, unlocked or set since |
| `Farm.ReleaseIsLegalUnlessLockedOut` | src/osdlp_cop.c:55-60 | a release keeps state and flags consistent if and only if the receiver is not locked out |
| `FopUnit.Fop.constructor` | src/osdlp_cop.c:23-37 | the FOP variables after preparation |
| `FopUnit.Fop.RemoveAckedFrames` | src/osdlp_cop.c:615-642 | the loop drops the items in front of the first one numbered N(R), at most one more than the window; it trips its counter exactly when there were more |
| `FopUnit.Fop.TransmitTypeAd` | src/osdlp_cop.c:482-514 | the whole state after a first transmission, including the failures of the two queues |
| `FopUnit.Fop.TransmitTypeBc` | src/osdlp_cop.c:516-542 | the whole state after a control command was transmitted, including the failures of the two queues |
| `FopUnit.Fop.LookForAnFdu` | src/osdlp_cop.c:395-450 | one marked frame is sent again, and then one new frame if the window test lets it through; the notice, and what it leaves in signal |
| `FopUnit.Fop.LookForADirective` | src/osdlp_cop.c:452-480 | the mutual recursion with the acceptance of a control command ends, and leaves the state, the signal and the returned notification stated |
| `FopUnit.Fop.InitiateAdRetransmission` | src/osdlp_cop.c:561-576 | the transmission queue is dropped, the try counted modulo 256 and every type-A item marked |
| `FopUnit.Fop.HandleClcw` | src/osdlp_cop.c:1975-2092 | a report selects, over all combinations of its flags, N(R), V(S), NN(R) and the counters, the entry of the action table; the state afterwards, the returned notification and signal are what that entry gives |
| `FopUnit.Fop.OnE1` | src/osdlp_cop.c:663-713 | the reaction to E1 in each of the six states: state, returned notification and signal |
| `FopUnit.Fop.OnE2` | src/osdlp_cop.c:715-780 | the reaction to E2 in each of the six states: state, returned notification and signal |
| `FopUnit.Fop.OnE6` | src/osdlp_cop.c:950-1014 | the reaction to E6 in each of the six states: state, returned notification and signal |
| `FopUnit.Fop.OnE8` | src/osdlp_cop.c:1182-1261 | the reaction to E8 in each of the six states: state, returned notification and signal |
| `FopUnit.Fop.OnE10` | src/osdlp_cop.c:1311-1364 | the reaction to E10 in each of the six states: state, returned notification and signal |
| `FopUnit.Fop.OnE101` | src/osdlp_cop.c:1067-1129 | the reaction to E101 in each of the six states: state, returned notification and signal |
| `FopUnit.Fop.OnE9` | src/osdlp_cop.c:1263-1309 | the reaction to E9 in each of the six states: state, returned notification and signal |
| `FopUnit.Fop.OnE16` | src/osdlp_cop.c:1581-1708 | the reaction to E16 and E104 in each of the six states: state, returned notification and signal |
| `FopUnit.Fop.OnE18` | src/osdlp_cop.c:1774-1816 | the reaction to E18 in each of the six states: state, returned notification and signal |
| `FopUnit.Fop.HandleTimerExpired` | src/osdlp_cop.c:2094-2125 | a timer expiry takes the step of the action table that transmission count, limit and timeout type select, and is answered accordingly |
| `FopUnit.Fop.ReqTransferFdu` | src/osdlp_cop.c:2127-2150 | the whole state, the notification and signal after a request, over all states, services and queue contents |
| `FopUnit.Fop.InitiateWithSetVr` | src/osdlp_cop.c:2279-2322 | both counters take the new value and the command is sent, or nothing happens outside the initial state; accepted, rejected or failed as returned |
| `FopUnit.Fop.ResumeAd` | src/osdlp_cop.c:2395-2555 | a suspended session continues in the state it was suspended from; accepted, rejected or not applicable as returned |
| `FopUnit.Fop.SetNewVs` | src/osdlp_cop.c:2557-2592 | V(S) and NN(R) are set together, only in the initial state and not while suspended; accepted or rejected as returned |
| `FopUnit.Fop.Step` | src/osdlp_cop.c:2094-3065 | every event, whichever procedure handles it, takes the step of the action table and is answered by its notification and signal |
| `FopUnit.WindowTestOnCircle` | src/osdlp_cop.c:387-444 | the two branches of the window test as one condition on the circle, for all values |
| `FopUnit.RangeTestOnCircle` | src/osdlp_cop.c:2005-2010 | the three branches of the range test as one condition, for all values |
| `FopNotices.AlertExactlyWhenGivenUp` | src/osdlp_cop.c:663-3065 | over every event but a directive, a sender outside its initial state returns an alert if and only if it gives the session up, and SUSPEND if and only if it suspends it; a directive is never answered with one, and no alert is left in signal while a session is open or being opened |
| `FopNotices.StaleAnswerExactly` | src/osdlp_cop.c:715-764 | a report that acknowledges everything is answered with the signal left from before if and only if no request waits |
| `FopMeaning.ReportStates` | src/osdlp_cop.c:1975-2092 | for every report in an open session, from its flags, N(R), V(S), NN(R), count, limit and state alone: the session is given up with empty queues if and only if the receiver is locked out, contradicts itself, is not believed, repeats itself to a retransmitting sender or the one try is used up; RT_WAIT, RT_NO_WAIT and ACTIVE otherwise, each if and only if stated |
| `FopMeaning.ReportQueues` | src/osdlp_cop.c:615-1464 | every other report removes exactly what it acknowledges; it starts a retransmission if and only if stated, which drops the transmission queue, begins with the oldest frame outstanding and sets the count to the second or the next try; if not, the queue keeps what it has and the count restarts if and only if something was acknowledged |
| `FopMeaning.WaitingGoesOut` | src/osdlp_cop.c:715-1014 | a report that acknowledges something, with nothing marked, transmits the request that waits |
| `FopMeaning.AwaitedReport` | src/osdlp_cop.c:663-1579 | a session that waits for a report is opened by one that agrees with both counters and has no flag up, ended if and only if the report is locked out, contradictory or not believed, and otherwise unchanged |
| `FopMeaning.AwaitedEffect` | src/osdlp_cop.c:663-1579 | a session that waits for the effect of its command is opened, the command crossed off, by a report that agrees, ended if and only if the receiver waits and asks for nothing at V(S), and otherwise unchanged |
| `FopMeaning.TimerStates` | src/osdlp_cop.c:1581-1816 | an expiry in any state: ignored, the session suspended, or given up, each if and only if stated by state, count, limit and timeout type; otherwise the state stays |
| `FopMeaning.TimerSendsOldest` | src/osdlp_cop.c:395-414 | an expiry with tries left in ACTIVE or RT_NO_WAIT counts one more try and puts the oldest outstanding frame first on the uplink, alone if nothing waits |
| `FopMeaning.TimerSendsCommand` | src/osdlp_cop.c:452-593 | an expiry with tries left sends a control command that had no effect again, alone, and counts it |
| `FopMeaning.RejectionEnds` | src/osdlp_cop.c:2795-3065 | a rejection by the lower layer ends the session from every state |
| `FopMeaning.TerminationEnds` | src/osdlp_cop.c:2324-2393 | terminating the service gives up every session, also one being opened |
| `FopMeaning.LimitDecides` | src/osdlp_cop.c:2677-2757 | the limit and timeout type set last decide whether the next expiry ends the session, suspends it or retransmits |
| `FopMeaning.WindowDecides` | src/osdlp_cop.c:2594-2635 | the window set last decides whether the next request is transmitted or waits |
| `FopMeaning.NewVsDecides` | src/osdlp_cop.c:2557-2592 | the V(S) set last is the number of the next frame once a session is opened |
| `FopAnswers.RequestAnswers` | src/osdlp_cop.c:1818-1875 | a type-A request is rejected, changing nothing, if and only if one waits or no session is open; DELAY means that it waits, ACCEPT that its frame is the last on the uplink and its number used up |
| `FopAnswers.ExpeditedAnswers` | src/osdlp_cop.c:1877-1973 | type-B data is accepted, or rejected for want of room; a command in its place is an undefined error; not accepted, it changes nothing |
| `FopAnswers.DirectiveAnswers` | src/osdlp_cop.c:2152-2757 | each directive is rejected if and only if stated, and then changes nothing; confirmed or accepted, it is carried out; the octets of the two control commands are 0 and 0x82, 0, V(R) |
| `FopAnswers.CommandLookAnswers` | src/osdlp_cop.c:452-480 | the acceptance of a control command is answered with an undefined error, the alert for the lower layer or ACCEPT_DIR, each if and only if stated; a marked command is sent again and unmarked |
| `FopAnswers.ResponseAnswers` | src/osdlp_cop.c:2759-3065 | a rejection by the lower layer is answered with the alert for it, the acceptance of type-B data with ACCEPT_TX, and an acceptance in a state that does not expect it is ignored; acceptances of the last two kinds change nothing |
| `FopAnswers.WhichAlert` | src/osdlp_cop.c:783-1579 | a session given up by a report returns the alert for lockout, an invalid N(R), a contradictory CLCW, the limit or lost synchronisation, by the flags and counters |
| `FopAnswers.IgnoredAnswers` | src/osdlp_cop.c:663-1579 | a report that makes nothing go out in an open session or the initial state is ignored, or an undefined error if the limit is zero and it asks again |
| `FopAnswers.AwaitedReportAnswers` | src/osdlp_cop.c:663-1579 | what a session that waits for a report answers to every report that does not end it |
| `FopAnswers.AwaitedEffectAnswers` | src/osdlp_cop.c:663-1579 | the same for a session that waits for the effect of its command, with the code ACCEPT_DIR in exactly the case stated |
| `FopAnswers.LookingAnswers` | src/osdlp_cop.c:395-450 | acknowledgements, retransmissions and acceptances are answered with what becomes of the request that waits, with an undefined error, or with the signal from before if none waits |
| `FopAnswers.TimerAnswers` | src/osdlp_cop.c:1581-1816 | an expiry that retransmits nothing is answered with the alert for the timer, SUSPEND, or that it is ignored, not applicable or undefined, as stated by state, count, limit and type |
| `FopUplink.AllSentAgain` | src/osdlp_cop.c:561-576 | go back N: with tries left and nothing waiting, one expiry and then each frame taken and accepted by the lower layer put exactly the outstanding frames on the uplink, from the oldest to the newest, and leave no mark |
| `FopUplink.AcceptSendsNext` | src/osdlp_cop.c:2759-2781 | the acceptance of a type-A frame by the lower layer sends the first frame still marked and unmarks it alone |
| `FopUplink.RequestAddsItsFrame` | src/osdlp_cop.c:1911-1973 | a type-B data request is accepted if and only if the transmission queue has room, and its frame is then the last there, with the header and data prepared; a type-A request adds none |
| `FopUplink.ExpeditedJoins` | src/osdlp_cop.c:544-559 | over every run of events in any state the type-B data frames that join the transmission queue are, in order, exactly those of the type-B requests that were accepted |
| `FopUplink.ExpeditedIsTaken` | src/osdlp_cop.c:544-559 | as long as no retransmission drops the queue, the type-B data the lower layer has taken and what is left in the queue are what was there before and then what was accepted since |
| `FopWindow.WindowTestExact` | src/osdlp_cop.c:387-444 | the test permits a transmission if and only if fewer than K frames are outstanding, whenever at most K are; beyond that, the exact set of values for which it errs |
| `FopWindow.AcknowledgementIsExact` | src/osdlp_cop.c:615-642 | within the window an acknowledgement removes exactly (N(R) - NN(R)) mod 256 items, never trips its counter, moves NN(R) to N(R) and restarts the transmission count if and only if it removed something |
| `FopWindow.InRangeAcknowledges` | src/osdlp_cop.c:2005-2010 | every N(R) between NN(R) and V(S) stands for exactly one frame of the session |
| `FopWindow.TransmitAdvances` | src/osdlp_cop.c:482-514 | a first transmission keeps the window: the new item carries the number packed in its frame |
| `FopWindow.ResendAdvances` | src/osdlp_cop.c:398-414 | what is sent again is an outstanding frame, unchanged, and only its mark is reset |
| `FopWindow.RequestKeepsWindow` | src/osdlp_cop.c:1818-1875 | a type-A request is taken, behind everything submitted before, if and only if no request waits |
| `FopWindow.ClcwKeepsWindow` | src/osdlp_cop.c:1975-2092 | a report with N(R) between NN(R) and V(S) keeps the window, acknowledging nothing or exactly what N(R) says, or ends the session with purged queues |
| `FopWindow.EventKeepsSession` | src/osdlp_cop.c:663-3065 | every event keeps the window invariant of a running or suspended session, or ends it: the sent queue holds type-A items numbered NN(R) to V(S)-1 in order, at most as many as the window, each the frame first transmitted; nothing submitted is lost and only outstanding frames go to the uplink |
| `FopWindow.EventAfterSession` | src/osdlp_cop.c:663-3065 | after the end of a session no type-A frame is sent |
| `FopLimits.RangeTestExact` | src/osdlp_cop.c:2005-2010 | the exact set of values for which the range test disagrees with NN(R) <= N(R) <= V(S) |
| `FopLimits.SmallWindowForgets` | src/osdlp_cop.c:615-642 | once the window was made smaller than what is outstanding, a report removes at most one frame more than it holds while NN(R) moves to N(R): the sent queue still holds what the counters say if and only if no more is acknowledged |
| `FopLimits.EventKeepsSuspension` | src/osdlp_cop.c:1648-1816 | a suspend state is held only in the initial state, after every event |
| `FopLimits.ResumeUndoesSuspend` | src/osdlp_cop.c:1648-1816 | a session suspended by the timer, at the limit or while it initialises, and resumed after any run of reports, expiries and type-B traffic is exactly what it was: state, V(S), NN(R), window, both queues |
| `FopLimits.RejectionSpoilsSuspended` | src/osdlp_cop.c:2795-3065 | a suspended session rejected by the lower layer loses its queues but not its suspend state: it is resumed intact if and only if they were empty |
| `FopLimits.EventKeepsCount` | src/osdlp_cop.c:561-593 | every event that does not move the limit keeps the transmission count within it if and only if it is not the one stated exception |
| `FopLimits.SessionNeverOvercounts` | src/osdlp_cop.c:1182-1261 | the exception does not occur while reports acknowledge something outstanding |
| `FopLimits.OvercountIsReached` | src/osdlp_cop.c:1182-1261 | with nothing outstanding it does: opening a session and two reports take the count past a limit of two |
| `FopLimits.TimerGivesUp` | src/osdlp_cop.c:1581-1816 | left alone, a retrying sender retransmits at each expiry until the limit and ends or suspends the session at the one after: exactly tx_lim - tx_cnt + 1 expiries |
| `FopLimits.RepeatedAcknowledgementExactly` | src/osdlp_cop.c:715-780 | a report that acknowledges everything outstanding leaves the state as it was, retransmitting or not; the same report once more ends the session if and only if the sender was retransmitting, or a waiting frame has since been sent with the number 255 |
| `ClosedLoop.MoveKeepsInvariant` | src/osdlp_cop.c:252-514 | every move of sender, receiver and channels keeps the invariant in unbounded numbers: NN(R) <= N(R) under way <= V(R) <= V(S) <= NN(R)+K, every frame under way lies between V(R)-K and V(R)+K-1 |
| `ClosedLoop.InOrderNoLossNoDuplicate` | src/osdlp_cop.c:252-3065 | in every run over lossy channels with any window up to 255, the type-A frames accepted are a prefix of those first transmitted, which are a prefix of those handed over; whatever the sender has crossed off has been accepted |
| `ClosedLoop.CountersFollow` | src/osdlp_cop.c:252-642 | NN(R), every N(R) on its way, V(R) and V(S) follow one another on the circle, and the sent queue measures the distance |
| `ClosedLoop.LockoutExactlyAtWrap` | src/osdlp_cop.c:226-283 | with K below the positive window width a move locks the receiver out if and only if it delivers a type-A frame numbered 255 at V(R) = 0 |
| `ClosedLoop.LockoutIsReachable` | src/osdlp_cop.c:240-249 | a run in which a retransmission that crosses its original locks the receiver out |
| `ClosedLoop.FalseAlarmExactlyWhenWrapped` | src/osdlp_cop.c:2005-2010 | a report that arrives within an open session is in range, and gives the session up by the alarm for an invalid N(R) if and only if it repeats NN(R) while the numbers of the window wrap; a suspended session ignores it |
| `ClosedLoop.FalseAlarmIsReachable` | src/osdlp_cop.c:2005-2010 | a run in which one report, sent before the frame numbered 255 arrives, ends a session that lost nothing |
| `ClosedLoop.CountWithinLimit` | src/osdlp_cop.c:561-593 | in every run of a session that leaves the limit alone no frame is transmitted more often than it allows |
| `Progress.SegmentSurvivesLosses` | src/osdlp_cop.c:1581-1646 | from a quiet link a segment whose frame and reports are lost together fewer times than the limit is retransmitted by the timer, accepted once and acknowledged, and the link is quiet again |
| `Progress.SecondComing` | src/osdlp_cop.c:226-283 | a frame that comes again right after it was accepted is discarded, or locks the receiver out: the latter if and only if its number is 255 or the window width is below two |
| `Progress.LostReportLocksOut` | src/osdlp_cop.c:226-283 | in that case one lost report and the retransmission after it lock the receiver out |
| `Progress.LimitEndsSession` | src/osdlp_cop.c:1710-1816 | lost as many times as the limit says, it ends or suspends the session and is not accepted |
| `Progress.EverySegmentArrives` | src/osdlp_cop.c:252-2125 | any list of segments with any such losses for each of them is accepted whole, once and in order, in one explicit run |
| `Progress.WholeWindowArrives` | src/osdlp_cop.c:252-2125 | as many segments as the window allows may be on their way together: all are accepted, and one report acknowledges them |
| `Recovery.GapIsAskedFor` | src/osdlp_cop.c:99-113 | from a quiet link two segments are sent, the first is lost, the second delivered and one report heard: the sender is in RT_NO_WAIT with the first frame alone on the transmission queue again, unless V(S) has wrapped, and then the session is given up |
| `Recovery.LockoutIsHeard` | src/osdlp_cop.c:1523-1558 | once the receiver is locked out its next report ends an open session, whatever older reports are heard before it |
| `Recovery.LockoutEndsSession` | src/osdlp_cop.c:1523-1558 | a run from every quiet link whose next frame would not be known again: one lost report, the frame a second time and one report more, and both ends have stopped |
| `Recovery.ExpeditedArrives` | src/osdlp_cop.c:306-336 | whatever the state of the two ends, with the queues empty a type-B data request is accepted, radiated and delivered as PRIORITY_ENQ with its header and data, with or without room; nothing else changes but the FARM-B counter and the prepared fields |
| `Recovery.WindowSurvivesLosses` | src/osdlp_cop.c:561-2781 | a whole window of segments, all of them lost together fewer times than the limit, is retransmitted by the timer and the acceptances of the lower layer each time, accepted in order and acknowledged by one report; the link is quiet again |
| `Reached.RepeatedAcknowledgementIsReached` | src/osdlp_cop.c:663-780 | from every quiet link a run in which a receiver short of room once and one report too many end a session whose segment was accepted and acknowledged |
| `Reached.UndefinedIsReached` | src/osdlp_cop.c:398-424 | from every quiet sender with one place in its transmission queue a run after which the next call of the service ends in UNDEF_ERROR |
| `SessionOpening.OpeningNeedsEqualCounters` | src/osdlp_cop.c:2152-2193 | opening without a report starts a session with an intact window if and only if V(S) and NN(R) already agree |
| `SessionOpening.AlertLeavesCountersApart` | src/osdlp_cop.c:355-378 | a run through an alert that ends with V(S) != NN(R), from which opening gives no intact window |
| `SessionOpening.SetVrOpensBothEnds` | src/osdlp_cop.c:2279-2322 | opening with Set V(R), its frame delivered and the report heard, leaves V(S), NN(R) and V(R) at the given value and the session open, if and only if the receiver was not locked out |
| `SessionOpening.UnlockOpensIffCountersAgree` | src/osdlp_cop.c:2237-2277 | opening with Unlock opens the receiver from every state, and the session if and only if V(S) = NN(R) = V(R) |
| `SessionOpening.ReportReleasesCommand` | src/osdlp_cop.c:1975-2092 | a sender that waits for the answer to a control command becomes active if and only if the report has no flag up and repeats both counters |
| `SessionOpening.ClcwOpensIffCountersAgree` | src/osdlp_cop.c:2195-2235 | opening with a report opens the session if and only if V(S) = NN(R) = V(R) and the receiver is open and asks for nothing |
| `SessionOpening.OldReportsExactly` | src/osdlp_cop.c:663-713 | old reports leave a sender that waits for the answer to its command as it was if and only if none of them repeats V(S) with the lockout and retransmit flags down; the first that does opens the session, or ends it if its wait flag is up |
| `SessionOpening.SetVrOverOldReports` | src/osdlp_cop.c:2279-2322 | opening with Set V(R) while old reports are under way opens both ends as without them if none of them repeats the new number so; otherwise the session opens or ends before the command is heard of, and the ends then agree if and only if the receiver was at that number already |
| `RingBuffer.ArcGrows` | test/queue_util.c:46-54 | writing the slot behind the last element appends to the contents, around the end of the memory too |
| `RingBuffer.ArcShrinks` | test/queue_util.c:82-90 | advancing the head drops the first element, around the end of the memory too |
| `RingBuffer.FullArcWraps` | test/queue_util.c:72-76 | on a full ring the slot at the tail is that of the oldest element |
| `RingBuffer.Queue.Enqueue` | test/queue_util.c:43-58 | appends to the bounded sequence, or refuses and changes nothing |
| `RingBuffer.Queue.EnqueueNow` | test/queue_util.c:60-77 | on a full queue the oldest element is replaced, not the newest as its comment says |
| `RingBuffer.Queue.Dequeue` | test/queue_util.c:79-94 | takes the first element of the sequence, or refuses |
| `RingBuffer.Queue.Reset` | test/queue_util.c:97-104 | empties the sequence |
| `RingBuffer.Queue.Full` | test/queue_util.c:114-118 | says whether the sequence has reached its bound |
| `RingBuffer.Queue.Front` | test/queue_util.c:121-128 | the first element, except that a full queue shows none |
| `RingBuffer.Queue.Back` | test/queue_util.c:131-142 | the last element, except that a full queue shows none |
| `RingBuffer.Queue.GetElement` | test/queue_util.c:144-155 | the element at a position of the sequence |
| `TcFrame.Pack` | src/osdlp_tc.c:123-160 | the octets of the packed frame at the front of the output buffer, the rest of it untouched |
| `TcFrame.RoundTrip` | src/osdlp_tc.c:90-182 | unpacking a packed frame of at most 1024 octets gives back every header field and the data, with and without segment header and CRC, and the frame passes the validation check |
| `TcFrame.LengthSurvivesExactly` | src/osdlp_tc.c:128-140 | the data length comes back right if and only if the frame has at most 1024 octets |
| `TcFrame.FrameValidationCheck` | src/osdlp_tc.c:162-182 | the check succeeds if and only if version, spacecraft and check value agree |
| `TcFrame.CorruptionIsRejected` | src/osdlp_tc.c:172-180 | a burst of up to sixteen bits outside the length field makes the validation check fail |
| `TcFrame.WireRoundTrip` | src/osdlp_tc.c:90-160 | the octets sent for a COP-1 frame are taken by the receiver for that very frame |
| `FrameBits.TcFrameIsLaidOut` | src/osdlp_tc.c:123-160 | the header of a packed frame, bit by bit: 2 bits of version, bypass, control command, 2 spare, 10 of spacecraft, 6 of virtual channel, 10 of length less one, 8 of sequence number (zero in type-B frames), then 2 of sequence flags and 6 of MAP; the data follows |
| `FrameBits.TcFrameIsReadSo` | src/osdlp_tc.c:90-121 | whatever readable octets are unpacked, the fields are these very bits of theirs |
| `FrameBits.CopFrameIsLaidOut` | src/osdlp_tc.c:123-160 | the same for a frame of COP-1, with the sequence flags 01 first, 00 continuing, 10 last, 11 alone |
| `FrameBits.TmFrameIsLaidOut` | src/osdlp_tm.c:96-151 | the header of a packed TM frame, bit by bit: 2, 10, 3, 1, 8, 8, 1, 1, 1, 2 and 11 bits, the secondary header of 2 and 6 bits and its octets, the data field, and the control field if its flag is set |
| `FrameBits.TmFrameIsReadSo` | src/osdlp_tm.c:155-187 | whatever octets are unpacked, the fields are these very bits of theirs, but for the version number, which is one if and only if its bits are not both zero |
| `TcReceive.TcReceiver.HandleSegment` | src/osdlp_tc.c:214-303 | the whole receiver state after an accepted segment, for the four sequence flags, both services and every length check |
| `TcReceive.TcReceiver.HandleWhole` | src/osdlp_tc.c:304-329 | the whole receiver state after an accepted frame of a mission without segment headers |
| `TcReceive.TcReceiver.HandleFrame` | src/osdlp_tc.c:211-339 | FARM-1 and reassembly of one valid frame; an error of FARM-1 drops the reassembly under way |
| `TcReceive.TcReceiver.Receive` | src/osdlp_tc.c:184-340 | delimiting, validation, FARM-1 and reassembly of received octets: the whole state and the result |
| `TcReceive.AcceptedUnitHasRoom` | src/osdlp_tc.c:224-238 | an accepted type-A unit is never refused by the receive queue |
| `TcReceive.SegmentFieldsIgnored` | src/osdlp_tc.c:304-329 | in a mission without segment headers the segment fields of a frame play no part |
| `TcReceive.TypeAFrameKeepsRoom` | src/osdlp_tc.c:211-340 | under type-A frames a receiver with a unit half gathered is not waiting and has room for it; a frame reaches reassembly if and only if FARM-1 accepts it, and otherwise leaves the unit alone |
| `TcReceive.FrameArrivesAsSent` | src/osdlp_tc.c:184-340 | the octets packed for a frame do to the receiver what the frame does, with and without segment headers |
| `TcReceive.CorruptionIsIgnored` | src/osdlp_tc.c:204-209 | corrupted by a burst of up to sixteen bits outside the length field they change nothing |
| `TcReceive.ResultTells` | src/osdlp_tc.c:184-340 | data ends in OK only with its octets, behind those gathered before, under way or delivered, at the oldest place if the queue is full; a command if and only if it is known; anything else is a COP error that delivers nothing |
| `TcReceive.ExpeditedIsDelivered` | src/osdlp_tc.c:184-340 | an unsegmented unit of the expedited service is delivered in every state, whether or not the queue has room |
| `TcReceive.CutShortIsIgnored` | src/osdlp_tc.c:184-200 | a frame received in part is a frame length error and does nothing |
| `TcReceive.TooShortIsIgnored` | src/osdlp_tc.c:184-200 | fewer than five octets, whatever they are, are a frame length error and do nothing |
| `TcReceive.ForeignIsIgnoredExactly` | src/osdlp_tc.c:162-182 | a frame of the same layout fails the validation check, and then does nothing, if and only if its version or spacecraft is another |
| `TcTransmit.TcSender.Transmit` | src/osdlp_tc.c:342-426 | the loop of one call does what the recursive specification says: FOP variables, recorded offset, result and signal, over all notifications and a full queue |
| `TcTransmit.PiecesCarryTheUnit` | src/osdlp_tc.c:352-357 | the segments carry the octets of the unit in order and number its length over the segment size rounded up |
| `TcTransmit.FlagsTellPosition` | src/osdlp_tc.c:358-372 | a segment is flagged unsegmented when alone, else first, continuing or last by its position |
| `TcTransmit.CallHandsOverPieces` | src/osdlp_tc.c:379-422 | within a session a call hands over a prefix of the remaining segments in order, and unless it ends in UNDEF_ERROR what it hands over and what is left to resume from are exactly what was left before |
| `TcTransmit.ResumeTells` | src/osdlp_tc.c:379-422 | in any state the next call starts the unit over after one that went through and after UNDEF_ERROR, and otherwise resumes strictly before the end |
| `TcTransmit.UndefinedExactly` | src/osdlp_cop.c:398-424 | UNDEF_ERROR answers a segment if and only if a retransmitted frame takes the last place of the transmission queue |
| `TcTransmit.EarlyCallForgets` | src/osdlp_tc.c:379-392 | a call with room in the transmission queue is rejected at its first segment if and only if a request waits or the session is not open, and then forgets how much of the unit was handed over |
| `TcTransmit.WaitingRequestRelabelled` | src/osdlp_cop.c:482-490 | the waiting request is then packed with the header fields of the rejected segment: it goes out as it was given if and only if the two segment headers are the same |
| `TcService.TakesInUnit` | src/osdlp_tc.c:215-303 | all segments of a unit, taken in order, deliver exactly that unit and close the loop; fewer deliver nothing |
| `TcService.PrefixDelivers` | src/osdlp_tc.c:215-303 | whatever prefix of the segments of a list of units arrives, a prefix of the list is delivered, and all of them deliver all of it |
| `TcService.FrameIsTakenIn` | src/osdlp_tc.c:211-339 | a frame delivered in the closed loop takes the step of the TC receiver, and its reassembly and queue are what the accepted segments make of them |
| `TcService.EventKeepsTypeA` | src/osdlp_cop.c:663-3065 | a sender that holds type-A frames only never comes to send another by any event but preparing one or starting a session |
| `TcService.TransmitIsARun` | src/osdlp_tc.c:342-426 | a call of the segmenting sender is a run of prepare and request moves of the closed loop |
| `TcService.UnitsArriveInOrder` | src/osdlp_tc.c:184-426 | in every run of calls, retransmissions, losses, reports, releases and units taken from the queue, the units delivered are a prefix of the units given to the sender, each whole and unchanged |
| `TcService.AcknowledgedIsDelivered` | src/osdlp_tc.c:184-426 | once nothing is outstanding, waiting or half sent, every unit given to the sender has been delivered and no reassembly is open |
| `TcShared.WaitErrorExactly` | src/osdlp_tc.c:330-333 | a type-A frame that is not accepted drops the unit under way if and only if it is next in sequence and finds a waiting receiver whose queue has room |
| `TcShared.EarlyFrameUnnoticedExactly` | src/osdlp_tc.c:215-333 | retransmitted after the release it is accepted, and the receiver ends as if it had not come early if and only if its segment does not build on the unit that was under way |
| `TcShared.WaitErrorIsReached` | src/osdlp_tc.c:211-339 | a run of type-A and type-B frames, a unit taken and a retransmission that reaches this state and loses a unit, which arrives without the early frame |
| `TcShared.FrameLeavesAloneExactly` | src/osdlp_tc.c:211-339 | exactly when a frame of either service, accepted or not, leaves the reassembly as it is, whether or not a unit is under way |
| `TcShared.RestTakenIn` | src/osdlp_tc.c:215-303 | whatever reassembly the rest of a unit finds, it leaves none open, and delivers the octets found and its own if and only if something was under way and they fit (a whole unit also if nothing was, or it is one segment) |
| `TcShared.AmongOthers` | src/osdlp_tc.c:215-303 | any segments in front of a unit or between any two of its segments, which may be any number: what is delivered is what they complete, and then what the rest of the unit makes of the reassembly they leave |
| `TcShared.AmongOneOther` | src/osdlp_tc.c:215-303 | for one such segment, the units delivered by its flag, length and place: in front of a segmented unit a first segment that fits loses it |
| `TcShared.FramesTakenIn` | src/osdlp_tc.c:211-339 | with room, all data frames of both services in sequence are accepted, V(R) counts those of type A, and the reassembly takes in their segments in order of arrival |
| `TcShared.UnitAmongFrames` | src/osdlp_tc.c:211-339 | a unit of either service among any frames of either service, lifted to the receiver: all are accepted and those of type A acknowledged, whatever becomes of the unit |
| `TcShared.UnitAndOneFrame` | src/osdlp_tc.c:211-339 | the same for one other frame, with the units delivered |
| `TcChannel.ActIsSimulated` | src/osdlp_tc.c:184-209 | every act on a channel of octets is an act of the service on frames, where a frame hit by a burst is lost on arrival |
| `TcChannel.RunIsSimulated` | src/osdlp_tc.c:184-426 | every run over octets is a run of the service over frames with the same ends |
| `TcChannel.UnitsSurviveBursts` | src/osdlp_tc.c:90-426 | over a channel that loses packed frames and hits each with a burst of up to sixteen bits outside the length field, the units delivered are a prefix of those given, all of them once the sender is settled, and the receiver never reads behind the octets that arrived |
| `TmFrame.Pack` | src/osdlp_tm.c:96-153 | the octets of the packed frame: headers, data filled up with idle octets, operational control field, check value |
| `TmFrame.PackCrc` | src/osdlp_tm.c:189-201 | the check value of the frame is recomputed in place |
| `TmFrame.PrimaryRoundTrip` | src/osdlp_tm.c:100-114 | every header field survives, the version number if and only if it is below two (unpacking joins its bits with a logical and) |
| `TmFrame.ArrivesAsSent` | src/osdlp_tm.c:155-187 | a packed frame is unpacked to the same first header pointer and data, and its check value agrees |
| `TmFrame.CorruptionIsRejected` | src/osdlp_tm.c:759-762 | any burst of up to sixteen bits anywhere in the frame makes the check fail |
| `TmFrame.StuffInPlace` | src/osdlp_tm.c:273-304 | filling up a queued frame in place gives the octets of the filled frame packed anew |
| `TmMux.ResidueExactly` | src/osdlp_tm.c:226-271 | the octets in use are found if and only if the last of several packets does not start within a header length of the end; otherwise the search stops short |
| `TmMux.LongPacketsAreSeen` | src/osdlp_tm.c:226-271 | with packets longer than a frame header the octets in use are always found exactly |
| `TmMux.UntoldCountsAsNothing` | src/osdlp_tm.c:226-271 | where the search meets something that is not idle and whose length the hook cannot tell, the frame counts as empty whatever lies in front of it |
| `TmMux.ShortPacketIsOverwritten` | src/osdlp_tm.c:306-414 | three calls from an empty queue after which the third packet lies where the second, short one was, for all packets of such lengths |
| `TmMux.ShortPacketExample` | src/osdlp_tm.c:226-271 | a layout and packets for which this happens |
| `TmMux.FramesCarryPacket` | src/osdlp_tm.c:367-413 | the frames of a packet carry all its octets in order |
| `TmMux.FrameHolds` | src/osdlp_tm.c:367-400 | the octets of one frame: those of the packet and behind its end 0xE0, and the pointer 0x7FF if and only if no packet starts there |
| `TmMux.PointersTellPacket` | src/osdlp_tm.c:371-380 | the first header pointer of each of these frames: start of the packet, end of the packet, or no packet start |
| `TmMux.EmitAppendsFrames` | src/osdlp_tm.c:399-413 | a call appends a prefix of the frames left; those missing when the queue refuses one are exactly the ones the recorded offset goes on with |
| `TmSender.Sender.EvalResidueLen` | src/osdlp_tm.c:226-271 | the search loop ends and returns the specified count for every frame |
| `TmSender.Sender.HandlePktStuffing` | src/osdlp_tm.c:273-304 | the last frame with the packet, or what fits of it, laid behind its used octets, and what remains |
| `TmSender.Sender.FillFrames` | src/osdlp_tm.c:367-413 | the emission loop: queue, recorded offset, result, and frame counts, of which a refused frame uses one up |
| `TmSender.Sender.Transmit` | src/osdlp_tm.c:306-414 | one call does what the specification says, with stuffing on and off, resuming an open transmission |
| `TmSender.CountsTellFramesApart` | src/osdlp_tm.c:385-396 | two frames have the same count if and only if a multiple of 256 frames lies between them |
| `TmReceiver.Receiver.ExplorePackets` | src/osdlp_tm.c:504-556 | the walk over the packets of a frame: packets delivered, and the beginning kept at its end |
| `TmReceiver.Receiver.HandlePtrNoPkt` | src/osdlp_tm.c:558-628 | the whole receiver state after a frame in which no packet starts |
| `TmReceiver.Receiver.CompletePacket` | src/osdlp_tm.c:630-680 | the whole receiver state after the octets in front of the first header pointer |
| `TmReceiver.Receiver.Receive` | src/osdlp_tm.c:729-746 | the whole receiver state after any frame, stuffing on |
| `TmReceiver.Receiver.StartPlain` | src/osdlp_tm.c:416-445 | the whole receiver state after a frame that starts a packet, stuffing off |
| `TmReceiver.Receiver.ContinuePlain` | src/osdlp_tm.c:447-485 | the whole receiver state after a frame that carries on a packet, stuffing off |
| `TmReceiver.Receiver.ReceivePlain` | src/osdlp_tm.c:487-502 | the whole receiver state after any frame, stuffing off |
| `TmReceiver.Receiver.ReceiveFrame` | src/osdlp_tm.c:748-772 | the check value test, the test for idle frames and the dispatch on received octets |
| `TmReceiver.FrameArrivesAsSent` | src/osdlp_tm.c:748-772 | with check values the octets of a packed frame do what its pointer and data do |
| `TmReceiver.WithoutCheckValuesExactly` | src/osdlp_tm.c:748-772 | without check values they do so if and only if their check value is the one left over in the frame structure, and are refused otherwise |
| `TmReceiver.OneCheckValueGetsIn` | src/osdlp_tm.c:748-772 | that value never changes, so over a whole run only the frames of this one check value get in |
| `TmReceiver.CorruptionIsIgnored` | src/osdlp_tm.c:759-762 | corrupted by a burst of up to sixteen bits they change nothing |
| `TmResults.ResultTells` | src/osdlp_tm.c:416-772 | with stuffing or without, PENDING is told only with a packet under way afterwards, OK and DENIED only without; DENIED if and only if what the frame completes does not fit, and then as many packets as fit were delivered; a frame of idle data changes nothing |
| `TmResults.ErrorExactly` | src/osdlp_tm.c:416-628 | an error is told if and only if no packet is under way to carry on, the octets gathered exceed the largest unit, or, without stuffing, the length cannot be told; only the second changes the receiver |
| `TmService.WalkDelivers` | src/osdlp_tm.c:511-556 | walking over packets that lie in a frame delivers exactly them and goes on behind them |
| `TmService.MiddleFrame` | src/osdlp_tm.c:558-628 | a frame that carries on a packet without its end, whether or not the length is known yet |
| `TmService.LastFrame` | src/osdlp_tm.c:630-688 | the frame in which a packet ends, whether or not the length was known before |
| `TmService.StuffCarries` | src/osdlp_tm.c:324-356 | filling up the last queued frame never disturbs what it held, and carries the packet or its beginning |
| `TmService.EmitCarries` | src/osdlp_tm.c:367-413 | new frames carry the rest of a packet with the right pointers; refused, they leave the recorded offset to resume from |
| `TmService.TransmitCarries` | src/osdlp_tm.c:306-414 | a call that succeeds puts its packet behind all packets before; a refused one can be repeated with the same arguments |
| `TmService.PacketsArriveInOrder` | src/osdlp_tm.c:306-746 | over every run of calls and passing frames, with packets over many frames, headers split across frames and refusals by the queue, the receiver has a prefix of the packets given to the sender and the queued frames hold exactly the rest |
| `TmService.BackFrameIsMeasured` | src/osdlp_tm.c:226-271 | in every run the last frame of a finished transmission is measured exactly: its packets end where the search stops and idle octets follow |
| `TmService.IdleFrameSwallowsPacket` | src/osdlp_tm.c:222-304 | a packet that fits into a frame of idle data at the end of the queue is laid into it; the call succeeds and no receiver delivers anything of it |
| `TmPlain.PacketsArriveInOrder` | src/osdlp_tm.c:306-502 | the same with stuffing off, where packets may also begin with the idle octet and be shorter than a header |
| `TmStream.FeedWidened` | src/osdlp_tm.c:416-746 | a receiver whose packets are taken from its queue does with any frames what one with room for all packets does, as long as what there is fits |
| `TmStream.PacketsStreamInOrder` | src/osdlp_tm.c:306-746 | stuffing on or off, in runs of any length with a receive queue of any size whose user takes packets at any time: what was taken and what is in the queue are a prefix of the packets given to the sender, and the queued frames hold exactly the rest |
| `TmPlain.ShortFramesLosePackets` | src/osdlp_tm.c:416-485 | with stuffing off and frames too short to tell a length, the frames of a packet leave the receiver as it was |
| `TmLoss.PointerResynchronises` | src/osdlp_tm.c:504-727 | whatever frames were lost before, from the first frame in which a packet starts a receiver delivers exactly the packets that a receiver delivers which missed nothing, and ends in the same state; of what came before it completes at most one packet |
| `TmLoss.ResynchronisedRun` | src/osdlp_tm.c:306-746 | in a run in which anything may have happened to earlier frames, from a frame in which a packet starts on the receiver delivers, after at most one leftover, a stretch of the packets given to the sender, whole, in order and without a gap |
| `TmSplice.ForeignEndExactly` | src/osdlp_tm.c:630-680 | any frame in which a packet ends, whatever follows in it: the octets in front of its pointer are joined to what was gathered, and delivered if and only if the whole has the length expected or, if none is known, the length it tells itself; then the walk goes on as ever |
| `TmSplice.ForeignMiddleExactly` | src/osdlp_tm.c:558-628 | the same for any frame in which no packet starts, which may also leave the mixture under way |
| `TmSplice.SpliceExactly` | src/osdlp_tm.c:630-680 | with stuffing, the end of any packet is joined to the beginning of another if and only if it completes the length of that one |
| `TmSplice.FirstAndLastSpliceExactly` | src/osdlp_tm.c:504-680 | with stuffing, two frames suffice: the first of one packet and the last of another, of whatever length |
| `TmSplice.DeliveredIsExplained` | src/osdlp_tm.c:504-746 | for any frames, whatever is missing between them: every packet delivered lies in one frame where the walk over packets leads, or is the end of a frame from there on, all middle frames after it and the head of the next pointer frame, and has the length its beginning tells |
| `TmSplice.PlainForeignExactly` | src/osdlp_tm.c:447-485 | without stuffing, what a frame of another packet does to what was gathered: dropped beyond the largest unit, delivered if and only if of the length expected, and otherwise under way still, even if too long |
| `TmSplice.PlainMixtureExactly` | src/osdlp_tm.c:447-485 | without stuffing, any number of such frames, of any packets, deliver exactly one packet if their octets complete the length expected and none otherwise |
| `TmSplice.CompletedExactly` | src/osdlp_tm.c:447-485 | they complete it if and only if those of the frames up to some one of them add up to it |
| `TmChannel.OctetsDoWhatFramesDo` | src/osdlp_tm.c:748-772 | a receiver fed the octets of any frames, some hit by bursts of up to sixteen bits, does what the frames do that were not hit |
| `TmChannel.PacketsOverOctets` | src/osdlp_tm.c:96-772 | end to end over octets, in runs of any length: what was taken and what the octets of the queued frames make of the receiver are exactly the packets given |
| `TmChannel.DeliveredOverOctets` | src/osdlp_tm.c:504-772 | whatever bursts hit, every packet delivered is put together as stated from frames that they did not hit |

## Left out

- Failures of the timer and purge hooks and of unmarking a frame, which the source turns into undefined-error
  notifications.
- FopUnit.Fop.Step: does not cover the directive that sets the timer value, which only the timer hook reads.
- Timers, threads and mutexes: a timer expiry is an event that may happen at any time.
- Responses of the lower layer given from within the enqueue hook, as the test driver does: here they are
  separate events between calls.
- Raw pointers and buffers shared between the queues: queues hold copies; a queued TM frame is replaced in
  its queue, and filling it up in place is shown for one frame as an array (`TmFrame.StuffInPlace`).
- The queue hooks of FOP-1 and of the TM sender are modelled by their contracts as bounded sequences; the
  ring buffer is shown to be such a sequence but is not plugged in. Whether the TM queue shows its last
  frame is left open in every call, which covers the full ring buffer.
- TcReceive.TcReceiver.Receive: does not cover buffers in which the source would read behind the end: a
  frame shorter than its own headers, or a control command shorter than the octets it is recognised by.
- TmReceiver.Receiver.ReceiveFrame: does not cover first header pointers that point behind the data field.
- TmSender.Sender.EvalResidueLen: hands the length hook the rest of the data field, where the source
  announces a whole data field and so memory behind it.
- Lengths are unbounded integers where the source has sixteen bits; the data length of an unpacked TC frame
  is taken modulo 65536 as in the source, and service data units are shorter than 65536 octets.
- The lookup of a configuration by virtual channel, the OCF content, the packing of reports into a CLCW and
  of space packets: one channel is modelled, and a report carries its fields as a record.
- Runs with idle frames between stuffed packets (only the loss of the packet behind one is shown), and switching
  stuffing or aborting a packet halfway.
- Progress from every reachable state, and all patterns of losses within a window: a quiet link gets its
  segments through (`Progress.EverySegmentArrives`, `Recovery.WindowSurvivesLosses`), while a sender that has
  used up its tries or waits for a release depends on its user.
