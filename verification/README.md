# A verified model of the DOCSIS provisioning monitor

The monitor reads frames from a provisioning interface, counts DHCP and TFTP traffic, keeps one
row per relay interface (gi-address), times answers against the requests they answer, and says
over SNMP and mail when an interface has gone quiet or is not being answered. This project models
that program and proves what it guarantees over every input and every run.

`dafny verify dfyconfig.toml` checks all of it.

## How it is laid out

| file | what it holds |
|---|---|
| `Common.dfy` | options, octets, saturating subtraction, a few sequence facts |
| `Packet.dfy` | the frame reader: Ethernet with tags, IPv4, the IPv6 extension chain, UDP, classification |
| `FrameBuilder.dfy`, `FrameRoundTrip.dfy` | a writer for such frames, and the proof that reading undoes writing |
| `FrameConverse.dfy` | the reader recognises nothing but such frames |
| `Truncation.dfy` | what a frame cut short by the capture still tells |
| `RelayTable.dfy` | the table of relays and pending transaction ids, as a class tied to its ghost history |
| `RelayHistory.dfy`, `RelayRows.dfy` | the same table described from the plain list of events, and the proof that they agree |
| `RelayLedger.dfy`, `RelayLimits.dfy` | conservation, staleness and latency bounds over whole runs |
| `SlidingWindow.dfy` | the one-second buckets, the flow table and its sorted listing |
| `WindowHistory.dfy`, `FlowHistory.dfy` | what buckets and flows say about the list of packets shown |
| `Judgement.dfy` | verdicts, the worst of them, and the repeat gate |
| `Adaptation.dfy` | measured idle thresholds |
| `Monitor.dfy` | the capture loop: frames, counters, relays, reports and the deadline |
| `MonitorTallies.dfy`, `MonitorAlarms.dfy`, `MonitorTotals.dfy`, `MonitorReports.dfy` | end-to-end guarantees of whole runs |
| `Ber.dfy`, `BerReader.dfy`, `TrapRoundTrip.dfy`, `Alert.dfy` | the SNMPv2c trap writer, a reference reader, and the round trip |
| `Mail.dfy`, `Base64.dfy` | the SMTP message text and base64, each with a receiver that undoes it |

A class (`Relays`, `Counters`, `Repeats`) carries the fields the program mutates and a ghost
`history`; its `Valid()` says the fields are the value of a step function folded over that history,
and every method extends the history by exactly its own event. What the history means is then said
a second time without the step function (which requests await an answer, which packets survive,
which readings belong to a row) and the two are proved equal.

## Where the code and its comments differ

The model follows the code:

* Flow counts are not windowed; they hold a flow's unbroken tail (src/counters.rs:140-155, against the comment at line 47): `FlowOutlivesTheWindow` shows it, `FlowHoldsItsWindow` says when it does not matter.
* `judge_relay` is given totals since start-up, not the window a report shows (src/capture.rs:328-330): `AnsweredWindowUnansweredVerdict`, with `PlantUnansweredExactly`.
* When the pending table is full, even a retry of an id already in it is refused (src/relays.rs:137, against the comment at lines 138-141): `FullTableRefusesRetry`, with `RetryReplacesExactly`.
* Only a request with a transaction id sweeps the table, so a reply can be timed however late it is (src/relays.rs:136, 148-153): `AnswerAfterAnyWait`, with `AnswerTimedExactly`.
* A reply to an unrelayed request is credited to the reply's own gi-address (src/relays.rs:154), so a row's answers can exceed its requests: `StrayAnswer`, with `AnswersWithinRequests`.
* The repeat gate records an attempt to send, not a delivery (src/alarm.rs:132-134).
* IPv6 fragments other than the first are read; IPv4 ones are not (src/packet.rs:168-171, 198-201).

The frame writer, the trap reader and the mail receiver keep their own numbers, those of the
standards, and take none from the code they are held against; the history of the relay table is
likewise told in its own numbers.

Clocks, frames and the configuration are parameters. Counters and times are unbounded naturals (a
`u64` of packets or seconds does not wrap in practice); where width matters it is written out: the
BER length and the packing of the first two arcs are 64-bit, counters and ticks are capped at 32
bits, and saturating subtraction is saturating. Ratios are exact reals.

## Model

| member | source | states |
|---|---|---|
| Packet.Read | src/packet.rs:86-108 | reads exactly what the total reading function says, on any octets, without an out-of-bounds read |
| Packet.Ethernet | src/packet.rs:136-149 | the tag loop computes the ethertype and payload left after stepping over at most two tags |
| Packet.Ipv6 | src/packet.rs:181-206 | the bounded extension loop computes where the chain ends, and refuses what runs past the octets |
| Packet.WalkAdvances | src/packet.rs:187-205 | the chain ends at least eight octets further on for each header followed, and at an extension number only when all eight steps are spent |
| FrameRoundTrip.ReadUndoesBuild | src/packet.rs:86-332 | for every frame built from tags, either IP header with options or extension chain, UDP and a message: the reader returns its kind, addresses, ports, gi-address and id exactly when it is a readable one, and nothing for three tags, nine extensions, a later IPv4 fragment, another protocol, a short UDP length or an unlisted TFTP opcode |
| FrameConverse.ReadExactly | src/packet.rs:86-332 | the reader says something of some octets exactly when they are those of a readable frame meaning that, whole or cut inside the checksum of an empty datagram; anything else, such as a short header length, a wrong version or a header past the end, is refused |
| FrameRoundTrip.TagsRead | src/packet.rs:136-149 | up to two tags of either kind are stepped over; a third leaves a tag as the ethertype |
| FrameRoundTrip.WalkReads | src/packet.rs:187-205 | up to eight extension headers of any kind, options of 8 * n + 8 octets and fragments of 8, are followed to the payload; a ninth leaves an extension number as the protocol |
| FrameRoundTrip.Ipv4Reads | src/packet.rs:152-173 | any header length from five to fifteen words is honoured, and a non-zero fragment offset refused |
| FrameRoundTrip.MessageReads | src/packet.rs:247-303 | kind, gi-address and transaction id of every DHCPv4, DHCPv6, TFTP or foreign payload, of any length: a DHCPv4 payload keeps its id from 8 octets on and its gi-address from 28, a TFTP one under 2 octets says nothing |
| Truncation.ReadOfPrefix | src/packet.rs:86-332 | what a truncated frame is read as, the whole frame is too: same addresses, ports and length; same kind exactly when a payload octet is visible or the ports guessed right; ids found stand; 28 payload octets settle everything |
| Truncation.KindOfPrefix | src/packet.rs:244-262 | cutting a payload short changes the kind only when nothing of it is left and the port guess was wrong |
| RelayTable.Relays.Request | src/relays.rs:127-145 | a request extends the history by itself and leaves the table the history determines |
| RelayTable.Relays.Reply | src/relays.rs:148-165 | a reply extends the history by itself and leaves the table the history determines |
| RelayTable.Relays.TftpRequest | src/relays.rs:173-176 | a read request is counted in the unrelayed row only |
| RelayTable.Relays.TftpSend | src/relays.rs:178-181 | a TFTP send is counted in the unrelayed row only |
| RelayTable.Relays.Entry | src/relays.rs:183-194 | the row for an owner, made with its first sighting when it is new |
| RelayTable.Relays.ExpirePending | src/relays.rs:196-203 | at most once a second, entries thirty seconds old are dropped and the others kept as they are |
| RelayTable.EachListsEveryRow | src/relays.rs:211-213 | every relay once, in address order |
| RelayHistory.PendingRefinesHistory | src/relays.rs:127-203 | under every interleaving, a pending entry is exactly the latest admitted request with its id that no reply took, no admitted retry replaced and no sweep removed |
| RelayHistory.AwaitsAppend | src/relays.rs:127-203 | one event ends exactly the waits it answers, retries or sweeps |
| RelayHistory.RetryReplacesExactly | src/relays.rs:135-143 | a retry takes its first attempt's place exactly when the sweep it causes leaves room under the cap; otherwise the first attempt goes on waiting |
| RelayRows.RowsRefineHistory | src/relays.rs:127-194 | every field of every row is the one its own readings determine: counts, last times, longest gap, first sighting, and each answer's latency once, in the row of the relay that asked |
| RelayRows.NoFilesUnderRelays | src/relays.rs:167-181 | no TFTP is ever filed under a relay |
| RelayRows.MeanWithinWorst | src/relays.rs:75-77 | a mean answer time exists exactly when something was answered, is the latencies' average rounded down, and never exceeds the worst |
| RelayLedger.RequestLedger | src/relays.rs:127-203 | requests = unnumbered + refused + retried + swept + answered + waiting, and at most 50,000 wait |
| RelayLedger.RowsAddUp | src/relays.rs:127-194 | each column added over all rows counts the events that feed it: none lost, none twice |
| RelayLedger.AnswersNeverExceedRequests | src/relays.rs:137-164 | over the plant, answered and waiting requests never exceed requests |
| RelayLimits.WaitingIsYoungerThanSweep | src/relays.rs:196-203 | with a forward clock, no waiting request is thirty seconds older than the last sweep |
| RelayLimits.FreshAfterRequest | src/relays.rs:135-143 | right after a numbered request everything waiting is under 31 seconds old |
| RelayLimits.LatencyBound | src/relays.rs:135-164 | an answer is timed below its distance from the last numbered request plus 31 seconds |
| RelayLimits.AnswerTimedExactly | src/relays.rs:148-164 | an answer to an admitted request not retried or answered since is timed in full exactly when no sweep has forgotten the request, and not timed at all otherwise |
| RelayLimits.LateAnswerIsTimed | src/relays.rs:148-164 | after any history, with no numbered request between, an answer however late is timed in full |
| RelayLimits.AnswerAfterAnyWait | src/relays.rs:148-164 | a concrete wait of any length is shown as the answer time |
| RelayLimits.FullTableRefusesRetry | src/relays.rs:137-143 | with 50,000 requests waiting, a retry of any of them leaves its first attempt timed |
| RelayLimits.AnswersWithinReplies | src/relays.rs:156-164 | in no row are there more answers than replies |
| RelayLimits.AnswersWithinRequests | src/relays.rs:153-164 | a row's answers are its own answered requests plus strays, and stay within its requests exactly when the strays fit among its unanswered ones; the unrelayed row always keeps within |
| RelayLimits.StrayAnswer | src/relays.rs:154 | a relay that never asked can be credited with an answer |
| RelayLimits.RequestsWithinGaps | src/relays.rs:127-133 | no requests, no last request; otherwise first to last request is at most the longest gap times the number of gaps |
| SlidingWindow.Counters.Add | src/counters.rs:126-144 | a packet extends the history by itself and leaves the counters the history determines |
| SlidingWindow.Counters.Expire | src/counters.rs:152-156 | dropping what is older than the window leaves the counters the history determines |
| SlidingWindow.Counters.Window | src/counters.rs:159-173 | the loop adds up every bucket left after expiry |
| SlidingWindow.Counters.ByFlow | src/counters.rs:190-195 | every listed flow once with its counts, busiest first |
| SlidingWindow.ListingIsUnique | src/counters.rs:193 | there is only one such listing |
| SlidingWindow.ListingExists | src/counters.rs:190-195 | and every table has it |
| SlidingWindow.KeyIsBusiestFirst | src/counters.rs:26-33 | a row comes before another exactly when it has more packets of all kinds together, or as many and a smaller source, destination or gi-address in that order, version 4 before version 6 and octet by octet |
| WindowHistory.WindowCountsSurvivors | src/counters.rs:126-173 | whatever the clock does, the window counts exactly the packets whose second lies above the cutoff of every later expiry |
| WindowHistory.WindowIsTheLastSeconds | src/counters.rs:152-173 | with a forward clock at positive seconds, that is the packets of the last `window` seconds |
| WindowHistory.BucketsStayFew | src/counters.rs:126-156 | bucket seconds strictly increase and there are never more than the window has |
| WindowHistory.WindowWithinTotals | src/counters.rs:159-184 | totals count every packet and no window exceeds them |
| FlowHistory.FlowCountsHeld | src/counters.rs:140-156 | whatever the clock does, a flow is listed and counts what it does for exactly the packets since it was last forgotten |
| FlowHistory.HeldIsUnbroken | src/counters.rs:140-156 | with a forward clock, those are its packets since it last paused for a whole window |
| FlowHistory.ListedIsRecent | src/counters.rs:152-156 | a flow is listed exactly when it had a packet within the window |
| FlowHistory.FlowHoldsItsWindow | src/counters.rs:140-155 | a listed flow's count is at least its packets in the window, and equals them exactly when each of its packets since it last paused for a whole window lies in the window |
| FlowHistory.FlowOutlivesTheWindow | src/counters.rs:140-155 | two packets nine seconds apart: ten seconds later a 15 second window holds one and the flow counts two |
| Judgement.VerdictMeans | src/alarm.rs:46-77 | Quiet exactly on a silence beyond the allowance; Unanswered exactly when not quiet, with five requests and too small a share answered; and the verdict shows both figures |
| Judgement.MoreAnswersNoWorse | src/alarm.rs:46-77 | more replies never make a verdict worse |
| Judgement.Worst | src/alarm.rs:146-156 | the loop returns the gravest state among the verdicts, Working when there are none |
| Judgement.Repeats.ShouldSend | src/alarm.rs:126-136 | the answer and the memory are those the run of consultations determines |
| Judgement.RemembersWhatItSaw | src/alarm.rs:126-136 | what the gate remembers, nothing read as Working, is always the state just observed |
| Judgement.SentExactly | src/alarm.rs:126-136 | a state is sent exactly when it is a change, or a trouble whose latest sending is `after` seconds old |
| Judgement.TroubleComesAgain | src/alarm.rs:130 | a trouble everything said about which is `after` seconds old is said again |
| Judgement.ChangesAlwaysSent | src/alarm.rs:123-130 | every change is sent, and Working only ever as a change |
| Judgement.SendsAreBounded | src/alarm.rs:121-136 | sends are at least the changes and at most the changes plus elapsed time over `after` |
| Adaptation.SuggestionsCoverRelays | src/adapt.rs:67-87 | one line for every interface that relayed anything, in address order |
| Adaptation.SuggestionSays | src/adapt.rs:67-144 | a line of suggestions shows the requests, the span, the longest gap, and from two requests on exactly three times that gap within 300 and 86,400 seconds |
| Adaptation.ThreefoldIsUnique | src/adapt.rs:113 | which fixes the number |
| Adaptation.TwoRequestsEarnANumber | src/adapt.rs:90-112 | a number is suggested exactly from two requests on |
| Adaptation.SuggestionIsRoomy | src/adapt.rs:48-113 | a suggestion lies between five minutes and a day, and times the number of gaps is at least three times the span of the requests, up to a day for each gap |
| Adaptation.SpanMeans | src/adapt.rs:72-75 | the span runs from the first packet of any kind to the last request |
| Adaptation.ThresholdFitsItsTraffic | src/adapt.rs:101-113 | the suggestion tolerates the request times it was measured from exactly when the longest gap is a day or less, and all request times with gaps up to three times that exactly when the cap does not bite |
| Monitor.Run | src/capture.rs:111-211 | the turns watched are those before the minutes of a measuring run or the seconds of any other are up, all of them when none were given; the loop says exactly the lines they determine, and ends with exactly the suggestions of a measuring run or the totals of any other |
| Monitor.TurnsAreWatched | src/capture.rs:123-159 | there is exactly one such number of turns |
| Monitor.Turn | src/capture.rs:161-199 | one turn counts its frame in both tallies and reports if a report is due |
| Monitor.MakeReport | src/capture.rs:263-337 | one report shows the window, judges every interface, lists the relays and the flows, consults the gate and, told, names the busiest flow, in that order |
| Monitor.Say | src/capture.rs:191-198 | a report falling due says exactly the line the run should say next and leaves every part as the run has it |
| Monitor.ShouldTell | src/capture.rs:474-479 | the gate is consulted only when there is somewhere to send |
| MonitorTallies.TalliesAgree | src/capture.rs:164-185 | at every point of a run the counters' totals equal the sums over all relay rows |
| MonitorTallies.ShownWindowIsTheLastSeconds | src/capture.rs:154-199 | the counts a report shows are the frames of the last window of seconds |
| MonitorTallies.ShownFlowsAreRecent | src/capture.rs:439-460 | a report lists a flow exactly when one of its frames was read in the last window of seconds |
| MonitorReports.ReportTellsTheRelays | src/capture.rs:263-432 | a report shows when it was made, every relay with its own history, silence, allowance and verdict, the gravest of these, how many requests await an answer, and the unrelayed traffic |
| MonitorReports.ReportTellsTheTraffic | src/capture.rs:263-277 | its window is the frames of the last window of seconds, and it lists, busiest first, exactly the flows with a frame among them |
| MonitorReports.ProgressTellsTheWindow | src/capture.rs:214-221 | a line of progress shows when it was made and the frames of the last window of seconds |
| MonitorReports.BusiestIsBusiest | src/capture.rs:486-497 | the flow an alert names is listed first, and no flow listed has more packets; none is named only when none is listed |
| MonitorReports.ClosingCountsEveryFrame | src/capture.rs:206-211 | the closing totals are all the frames of each kind ever read |
| MonitorReports.AnswerTimedFrameToFrame | src/capture.rs:161-185 | a reply read right after the request it answers is timed by the two frames' millisecond clocks, in the row of the relay that asked |
| MonitorAlarms.RelayQuietExactly | src/config.rs:175-179 | an interface is Quiet exactly when silent beyond its own number of seconds, or the common one when it has none |
| MonitorAlarms.PlantQuietExactly | src/capture.rs:323-337 | a report says Quiet exactly when some interface has been silent beyond its own allowance |
| MonitorAlarms.PlantUnansweredExactly | src/capture.rs:323-337 | failing that, Unanswered exactly when some interface has five requests and too small a share of replies since the start |
| MonitorTotals.AnsweredWindowUnansweredVerdict | src/capture.rs:323-337 | a run whose last window shows every request answered and whose verdict is still Unanswered, for any relay |
| MonitorAlarms.MeasuredThresholdNeverCriesWolf | src/adapt.rs:90-144 | replaying a run under thresholds measured from it, no report up to the threshold past a relay's last request finds it Quiet |
| MonitorAlarms.MeasuredPlantNeverCriesWolf | src/adapt.rs:90-144 | and if so for every relay that asked, no such report calls the plant Quiet |
| MonitorAlarms.MeasuredThresholdFitsOtherRuns | src/adapt.rs:90-144 | on any other run whose gaps are at most three times the longest measured, uncapped, no report up to the threshold past the relay's last request finds it Quiet |
| MonitorAlarms.MeasuredPlantFitsOtherRuns | src/adapt.rs:90-144 | and if so for every relay that asks in that run, no such report calls the plant Quiet |
| MonitorAlarms.MeasuredSilenceIsQuietExactly | src/adapt.rs:90-144 | under a measured threshold a relay is Quiet in any run exactly when silent for longer than three times the longest gap measured, within five minutes and a day |
| MonitorAlarms.MeasuredSilenceIsReported | src/adapt.rs:90-144 | and such a silence is reported within that, one report interval and one turn |
| MonitorAlarms.SilenceIsReported | src/capture.rs:154-199 | a relay that falls silent is reported within its allowance, one report interval and one turn, and the gate is told |
| MonitorAlarms.ReportsAreSpaced | src/capture.rs:191-193 | two reports are never closer than the interval asked for |
| MonitorAlarms.FirstReportWaits | src/capture.rs:121 | no report is made before the first interval is over |
| MonitorAlarms.GateAfterReport | src/capture.rs:474-479 | after every report with somewhere to send, the gate remembers the state reported |
| MonitorAlarms.TellingIsBounded | src/capture.rs:474-479 | over a run somebody is told of every change, and otherwise at most once per resend interval |
| MonitorAlarms.TroubleIsToldAgain | src/capture.rs:474-479 | while trouble lasts, nobody is left untold for longer than the resend interval, one report interval and one turn |
| Ber.Length | src/snmp.rs:155-165 | the short form below 128, else a count and the fewest octets |
| Ber.Integer | src/snmp.rs:168-179 | the loop leaves the fewest two's complement octets of any 64-bit integer |
| Ber.Unsigned | src/snmp.rs:184-194 | the fewest octets of the value capped at 32 bits that read as non-negative |
| Ber.Base128 | src/snmp.rs:215-223 | the loop writes the septets of the arc, high bit on all but the last |
| Ber.MakeOid | src/snmp.rs:204-213 | two arcs packed into one, then each arc in turn |
| Ber.Varbind | src/snmp.rs:226-236 | a sequence of the name and the value in its own tag |
| Ber.Encode | src/snmp.rs:87-115 | the whole datagram, with the two mandatory bindings first |
| TrapRoundTrip.TrapComesBack | src/snmp.rs:87-235 | a reference reader gets back version 1, community, masked request-id, both mandatory bindings, then every binding in order up to the 32-bit cap, with nothing left over |
| TrapRoundTrip.OidRoundTripExactly | src/snmp.rs:204-223 | an identifier comes back exactly when it has two arcs, the first at most 2, the second under 40 unless the first is 2, and the two pack into 64 bits |
| TrapRoundTrip.LengthIsMinimal | src/snmp.rs:155-165 | one octet below 128, else no leading zero octet |
| TrapRoundTrip.SignedIsMinimal | src/snmp.rs:168-179 | no sign octet could be dropped |
| TrapRoundTrip.SignedSpells | src/snmp.rs:168-179 | two's complement gives the integer back |
| TrapRoundTrip.UnsignedReads | src/snmp.rs:184-194 | an unsigned value comes back up to saturation and never reads as negative |
| TrapRoundTrip.Base128IsMinimal | src/snmp.rs:215-223 | no arc opens with an empty septet, and only its last octet has the high bit clear |
| Alert.AlertIsUnderstood | src/capture.rs:500-525 | the receiver of any alert recovers everything it was built from: names, state and its word, counts, window and uptime in hundredths of a second |
| Alert.AlertRepeatsTheReport | src/capture.rs:263-299 | the receiver of a report's alert recovers the state and the window counts of that report's own line |
| Alert.AlertTellsTheTraffic | src/capture.rs:263-299 | it reads Quiet exactly when some interface had been silent beyond its allowance, and as counts the frames of the last window of seconds, up to the 32-bit cap |
| Alert.BuildMakesAlerts | src/capture.rs:500-525 | the trap a report builds is such an alert |
| Mail.Data | src/email.rs:148-165 | the loop writes the headers, the stuffed body lines and the final dot |
| Mail.LinesExactly | src/email.rs:156 | the lines sent are the only ones that, each with the line feed or carriage return and line feed it had, make up the body again |
| Mail.MailComesBackExactly | src/email.rs:142-165 | the receiver gets the five header lines and exactly the body's lines and stops at the final dot, precisely when no header has a line break inside it |
| Mail.RecipientsComeBack | src/email.rs:152 | splitting the To header at each comma and space gives the recipients back in order, whenever none of them holds one |
| Base64.Encode | src/email.rs:198-213 | the nested loops write the text of every chunk in order |
| Base64.TextComesBack | src/email.rs:198-213 | a strict reader gives every octet string back |
| Base64.TextShape | src/email.rs:201-211 | four characters for every three octets begun, padding only at the very end |

## Left out

- Sockets, trap and mail sending, the SMTP conversation, interface discovery, daemonising, PID and log files: input and output.
- Date formatting, version stamps, report text, subjects, the sentences beside suggestions and the block to paste: text for people.
- Loading and checking the configuration; the model keeps the values the loop uses, per-relay thresholds as a map from addresses, and one flag for whether there is anywhere to send.
- Floating-point rounding of the answered share: the model compares exact ratios.
- Wrap-around of 64-bit counters and second counts, which no run reaches.
- IP and UDP checksums and the IP total length, which the program does not look at.
- The speed of the sweep: a timing matter.
- Monitor.Run: the lines carry everything a report prints as values; that only the first rows of a long flow listing are printed, and an empty unrelayed row is not, is text for people.
- Alert.AlertFor: the host, the interface and the busiest flow go into a trap as text made elsewhere.
- RelayLimits.AnswersWithinRequests: per row the model gives the exact excess rather than the plain bound, because the program can exceed it.
- TrapRoundTrip.TrapComesBack: asks that the datagram be under 2^64 octets, as any in memory is.
