# Verified models of the ESP32 workbench

The workbench is a Raspberry Pi portal (`pi/`) that supervises ESP32 boards on USB slots, plus the
firmware it provisions (`test-firmware/`). This project models the parts of it whose correctness is
hardest to see from one function, and proves what those parts promise. Verify with
`dafny verify dfyconfig.toml`.

## The slot supervisor

`SlotModel` is one USB slot of `pi/portal.py` as a state machine. A step is what one thread does between
two sleeps or lock acquisitions; hotplug events, polls, operator calls, background starts and stops,
resets, monitors, releases and recovery threads interleave in any order, and every operating-system call
may go either way. Besides the slot's own fields the state records the threads under way, the lock holder,
the proxy processes really alive, the last USB command and the accepted events. `PortalSlot.SlotRecord` is
the slot dict as a class; each method that is a whole step makes exactly that step, from a reachable
record to a reachable record, so the theorems of `SlotTheorems` hold before and after the code's own
statements. `SlotService` and `SlotEndings` say what the steps bring about. `StormRuns` and `StormMarks` count
starts over whole runs, and explicit runs meet the bounds. `Portal` puts all slots, the shared GPIO lines and
`host_ip` together; `Gpio` holds the GPIO line tracker beside the kernel's table of line requests.

Main results, each for every reachable state or every run:

* at most one recovery per slot is in flight, and `_recovering` says exactly when;
* USB stays unbound after exactly two endings of a recovery: retries exhausted, BOOT could not be driven;
* without a BOOT pin, k manual calls allow at most 2(k + 1) USB rebinds, even when a manual call resets
  the counter under a sleeping recovery thread;
* no proxy process leaks, and a running slot's URL names its port and the current `host_ip`;
* the pruned time window shows what the whole event history would show, and the flapping flag is a
  function of that history and its previous value;
* starts and stops are scheduled by exactly the events that ask for them, and from every reachable slot a
  scheduled start, a stop, a reset, a release or a recovery that meets nobody runs through to the state it
  promises;
* download mode excludes flapping, so polls leave it alone;
* 30 s schedule at most fifteen proxy starts, and five if no recovery ended within them;
* a slot in download mode has its BOOT line driven low exactly if no release was attempted since its
  recovery drove it, whatever the other slots do.

## The other parts

* `Telnet`, `ComPort`, `SerialProxy`: the stream parser and COM-PORT responder of `pi/serial_proxy.py`
  (RFC 854, section 3 of RFC 2217). Parsing undoes printing; settings stay legal over any stream.
  `ComPortRequests` says what each request on the wire sets and how it is answered.
* `TelnetPeer`: a client at the other end that doubles every IAC among parameters as RFC 855 asks, and
  exactly which answers and requests the two understand.
* `UrlForm`: percent-encoding (section 2.1 of RFC 3986) against the firmware's in-place decoder and field
  scan. Credentials survive the trip exactly under stated conditions.
* `Dns`: the firmware's DNS responder (sections 3.1 and 4.1 of RFC 1035), with all index bounds. `DnsReplies`
  gives its replies octet by octet.
* `LineReader`: the chunked serial line reader; the report does not depend on how the stream is cut.
* `Human`: the operator handshake over all interleavings of its lock sections.
* `Wifi`, `WifiThreads`, `WifiStations`, `WifiController`: the access-point/station/mode machine, its calls
  interleaved, the lease table and the event queue.

## Where the code and its documents differ

The model follows the code. `docs/Universal-ESP32-Workbench-FSD.md:147` speaks of up to 4 retries and
lines 128 and 624 of backoff; the code makes 2 attempts after a fixed cooldown (`pi/portal.py:35-36`). These
statements look true and are not, and the project proves what holds instead:

* "Every recovery rebinds USB": false for exactly two endings (`SlotTheorems.RecoveryEndsRebound`; runs with
  each in `StormRuns`).
* "A storm starts at most five proxies in 30 s": a recovery that ends in between makes room for five more,
  and two of them can (`StormRuns.FifteenStartsInTwentySeconds`); fifteen is the bound
  (`StormRuns.StormStartsBounded`).
* "Download mode means BOOT is held": not during the EN pulse of a release, nor after a release call that
  raised (`Portal.DownloadModeHoldsBoot`, `Portal.ReleaseInDownloadMode`).
* "A reset that is over leaves the slot idle or absent": not one whose pulse or read raises
  (`SlotEndings.ResetThatRaises`); every other does (`SlotEndings.ResetTailEnds`).
* "Every accepted Done is reported as confirmed": only if the wait had not timed out before the reply was
  made up (`Human.DoneReportedExactly`, `Human.LateDoneIsLost`).
* "A stop size of 1.5 is acknowledged as 3": it is acknowledged as 1 (`ComPort.StopSizeAnswer`).
* "An answer reaches the client intact": only if it holds no 255, since the proxy doubles no IAC
  (`TelnetPeer.AnswerReachesClient`); nor does it take a doubled one for one, so a baud rate with a 255
  before an octet other than 255 is set wrongly (`TelnetPeer.DoubledBaudRequest`, `TelnetPeer.MisreadBaud`).
* "A stream may be read in any pieces": only if no piece ends in an open command
  (`Telnet.CutsExactlyWhenSettled`).
* "A leave after joins restores the access point": a second join forgets it (`Wifi.SecondJoinForgets`).
* "Serial mode means no access point": true of complete calls, broken by an `ap_start` overtaken between
  its mode check and its lock, and by nothing else (`WifiThreads.SerialApExactly`).
* "Every DNS question is answered", "the answer count counts the answers": only the first question has an
  effect (`Dns.FirstQuestionOnly`, `Dns.HonestCountExactly`).
* "The flag test looks at the opcode": it looks at the other flag byte (`Dns.FlagTestIsNotTheOpcode`).

## Model

| member | source | states |
|---|---|---|
| SlotTheorems.RecoveringMeansOneInFlight | pi/portal.py:734-859 | in every reachable state `_recovering` holds exactly when one recovery is in flight, and there is never a second one |
| SlotTheorems.UnboundOnlyAfterTwoEndings | pi/portal.py:754-859 | between recoveries USB is unbound exactly when the last recovery gave up or could not drive BOOT |
| SlotTheorems.RecoveryEndsRebound | pi/portal.py:775-859 | the step that ends a recovery leaves USB unbound in exactly two cases; in all others where the USB device is known it leaves it rebound |
| SlotTheorems.HotplugIgnoredWhileRecovering | pi/portal.py:1158-1179 | while a recovery is in flight a hotplug event changes only the sequence number, last action and event time |
| SlotTheorems.RecoveryAttemptsBounded | pi/portal.py:827-859 | without a BOOT pin, a run with k manual calls rebinds USB at most 2(k + 1) times and the retry counter stays in 0..2, counted from the run's own steps |
| SlotTheorems.RecoverCallsCounted | pi/portal.py:1506-1522 | the ghost count of manual calls is the number of such steps in the run |
| SlotTheorems.NoProxyLeaks | pi/portal.py:373-461 | at most one proxy process is alive; an unrecorded one belongs to the start that holds the slot lock; `running` holds exactly when a pid is set, and then the URL names the slot's port |
| SlotTheorems.EventsAreHistory | pi/portal.py:1181-1186 | the recorded events are what the run accepted since the last clear, told from the steps alone |
| SlotTheorems.WindowRefinesHistory | pi/portal.py:1181-1186 | at any later time the pruned window and the full accepted history look the same through the 30 s filter |
| SlotTheorems.FlappingExactly | pi/portal.py:1188-1208 | after an accepted event the slot flaps exactly if six accepted events lie in 30 s, or it flapped before and the last two are less than 10 s apart |
| SlotTheorems.QuietSlotSettles | pi/portal.py:555-571 | a slot not in recovery whose accepted events are all 30 s old is not flapping after the next poll |
| SlotTheorems.StormStartsFewProxies | pi/portal.py:1202-1235 | among the events accepted since the last clear, those of a stretch shorter than 30 s schedule at most five starts |
| StormRuns.StormStartsBounded | pi/portal.py:1202-1235 | in any run, the steps whose hotplug events fall into 30 s schedule at most five starts for each clear among them and five more, and at most fifteen however many clears and manual calls there are |
| StormRuns.AsleepKept | pi/portal.py:846-852 | a recovery that sleeps has accepted no event since it lay down, so it clears the window a whole cooldown after every event it forgets |
| StormMarks.MarksBounded | pi/portal.py:1202-1235 | the arithmetic behind it: each closed group of starts has taken a cooldown, so three groups fill 30 s |
| StormRuns.StormStartsCounted | pi/portal.py:761-772 | so 30 s schedule at most five starts on a slot with a BOOT pin, and at most fifteen on one without |
| StormRuns.FifteenStartsInTwentySeconds | pi/portal.py:847-858 | fifteen is met: a run without manual calls that schedules fifteen starts within twenty seconds, around two recoveries |
| StormRuns.GivingUpLeavesUnbound | pi/portal.py:836-844 | a run without manual calls in which the third recovery gives up and leaves USB unbound |
| StormRuns.BootFailureLeavesUnbound | pi/portal.py:795-799 | a run in which BOOT cannot be driven and USB is left unbound |
| SlotTheorems.ReachableClosed | pi/portal.py:373-897 | every step of every thread leads from a reachable slot to a reachable slot |
| SlotTheorems.StartsAreMarked | pi/portal.py:1210-1235 | a background start is scheduled by a step exactly when it is a hotplug event outside recovery and its event is marked as a start |
| SlotService.SchedulesExactly | pi/portal.py:1210-1251 | a step schedules a background start exactly when it is an "add" outside recovery that leaves a slot with a port not flapping, and a background stop exactly when it is a "remove" outside recovery that raises no alarm, on a slot with a port and a running proxy |
| SlotService.PlugStateExactly | pi/portal.py:1210-1247 | presence, device node and phase after the end of each event's handler, at once or after the recovery it started was dispatched; besides those only an operator's start and the boot scan change presence |
| SlotService.EventTold | pi/portal.py:1158-1247 | every event leaves its number, action and time on the slot, and the phase that follows from alarm, flapping and action |
| SlotService.PollExactly | pi/portal.py:544-571 | a poll strikes off exactly a recorded proxy that does not answer, calls off flapping exactly outside recovery with fewer than six accepted events in the window, and sends the phase home exactly in these cases |
| SlotService.PollKeepsDownloadMode | pi/portal.py:817-821 | download mode means not flapping, in every reachable state, so a poll whose recorded proxy, if any, answers leaves it alone |
| SlotService.StopSilences | pi/portal.py:450-461 | whatever came in between, a stop that holds the lock ends with no proxy on record and none alive |
| SlotService.BgStopStops | pi/portal.py:1248-1251 | a scheduled stop that gets the free lock leaves the recorded proxy dead and changes nothing else |
| SlotService.ApiStopStops | pi/portal.py:1300-1319 | the operator's stop does the same, and the phase goes home |
| SlotService.StartServes | pi/portal.py:400-420 | a start whose process lives and answers on the port puts it on record under the current URL, alone, idle and with the lock free |
| SlotService.FailedStartLeavesNothing | pi/portal.py:373-430 | a start that fails leaves no process behind, and the phase its launcher promises |
| SlotService.BgStartServes | pi/portal.py:1221-1235 | from every reachable slot, outside flapping and recovery, a scheduled start that gets the free lock can stop what is recorded, launch and record: the new proxy serves the slot |
| SlotService.BgStartGivesWay | pi/portal.py:1226-1228 | under flapping or recovery it goes away and changes nothing else |
| SlotService.ApiStartServes | pi/portal.py:1288-1297 | the operator's start does the same from any reachable slot with a free lock, and makes the device present |
| SlotService.BootScanServes | pi/portal.py:532-541 | so does the boot scan for a slot without a running proxy |
| SlotEndings.ResetServes | pi/portal.py:626-682 | a whole reset of a present device that meets nobody: the old proxy is gone and a new one serves the slot |
| SlotEndings.ResetTailServes | pi/portal.py:671-680 | from every reachable slot the tail of a reset starts a proxy when none is running |
| SlotEndings.ResetTailEnds | pi/portal.py:674-680 | if that start fails or a proxy is running already, the slot does not go on resetting |
| SlotEndings.ResetWithoutPort | pi/portal.py:648-656 | a reset whose port does not open ends at home phase with the proxy down |
| SlotEndings.ResetThatRaises | pi/portal.py:658-669 | a reset whose pulse or read raises ends with the proxy down and the slot still resetting |
| SlotEndings.ResetRefused | pi/portal.py:638-641 | without a device node or a present device a reset changes nothing |
| SlotEndings.MonitorComesHome | pi/portal.py:685-727 | a monitor is monitoring while connected and home afterwards, and leaves no other trace; one that cannot connect leaves none |
| SlotEndings.MonitorRefused | pi/portal.py:697-700 | without a running proxy nothing happens |
| SlotEndings.ReleaseTailEnds | pi/portal.py:886-895 | whatever came in between, the end of a release's pulse leaves the slot idle with counter 0 |
| SlotEndings.ReleaseEnds | pi/portal.py:862-897 | a release in download mode that lets go of BOOT ends idle with counter 0, with or without a pulse, and leaves no other trace |
| SlotEndings.ReleaseRefused | pi/portal.py:871-882 | any other release changes nothing but that BOOT may have been let go |
| SlotEndings.AlarmExactly | pi/portal.py:1188-1208 | outside recovery an event starts a recovery exactly if six accepted events lie in the window and the slot was not flapping or is called off flapping by this one |
| SlotEndings.RecoverExactly | pi/portal.py:1517-1521 | the operator's call resets the counter, sets the flag, and starts a recovery exactly if none runs |
| SlotEndings.RecoveryEndsExactly | pi/portal.py:754-859 | flag, phase, counter and window after each ending: flapping for an unknown USB device, exhausted retries or a BOOT failure; else calm, in download mode with counter 0 or idle with the next count |
| SlotEndings.RecoveryReachesDownloadMode | pi/portal.py:734-824 | from every reachable slot with a BOOT pin a dispatched recovery that can drive BOOT runs through to download mode: USB rebound once, proxy down, flag and counter cleared, however the EN pulse goes |
| SlotEndings.RecoveryCoolsDown | pi/portal.py:827-859 | without a BOOT pin and with a retry left it runs through to an idle, calm slot a cooldown later, with the counter one higher and USB rebound once |
| SlotTheorems.GoodKept | pi/portal.py:734-859 | every step of every thread keeps the six invariants behind these theorems |
| FlapWindow.PruningIsInvisible | pi/portal.py:1184-1186 | filtering an already pruned list later gives what filtering the full list gives |
| FlapWindow.WindowCounts | pi/portal.py:1202-1203 | if the n-th youngest event is inside the window then the window holds at least n |
| FlapWindow.QuietWindowIsEmpty | pi/portal.py:560-565 | after a whole quiet window nothing is left in it |
| Portal.DownloadModeHoldsBoot | pi/portal.py:775-897 | in every run of all slots, for pins that /api/gpio/set was not used on: a slot in download mode has BOOT driven low exactly if no release was attempted since the slot's recovery drove it |
| Portal.ReleaseInDownloadMode | pi/portal.py:877-892 | runs that end in a release with the slot still in download mode, during the EN pulse or because the call raised: BOOT is not held any more |
| Portal.RunningUrlIsCurrent | pi/portal.py:312-322 | in every run a running slot's URL is made of the current `host_ip` and its port |
| Portal.OthersUndisturbed | pi/portal.py:775-897 | a step of one slot leaves every line but that slot's own pins as it was: held or not, direction and level |
| Portal.OwnMoveHolds | pi/portal.py:775-897 | every step of a slot keeps this: in download mode BOOT is low exactly if no release was attempted since it was driven, and between the drive and download mode it is low |
| Portal.OwnEnLine | pi/portal.py:801-812 | a slot's EN line goes low in the first half of a pulse and high in the second, in recoveries and releases alike, and no other step of the slot touches it |
| Portal.SystemRunGood | pi/portal.py:1129-1251 | all invariants hold of every slot in every state of every run |
| Gpio.TrackerAgreesWithHardware | pi/portal.py:95-133 | after any `_gpio_set` calls, also ones that raise half way, each tracked pin has exactly one live line request, in the tracked direction, and no other line is held |
| Gpio.SetLine | pi/portal.py:95-133 | a call, however it ends, leaves tracker and hardware in agreement |
| Gpio.SetReaches | pi/portal.py:102-133 | a call that works leaves the line in the direction and level asked for |
| Gpio.SetLeavesOthers | pi/portal.py:95-133 | no call on one pin changes the line of another: not whether it is held, its direction or its level |
| Gpio.LettingGo | pi/portal.py:99-116 | an attempt to set a pin to high impedance, however it ends, does not leave it driven low: a held line means an open chip, so the call gets as far as the line |
| Gpio.FailedCall | pi/portal.py:95-137 | a call that raises leaves a driven line that was to be driven as it was, gives any other back, and does nothing if the chip cannot be opened |
| Gpio.DropFrees | pi/portal.py:104-106 | after a release the line is held by nobody, so it may be requested again |
| Gpio.Tracker.Set | pi/portal.py:95-133 | the call in place, on tables and kernel together; it never asks for a line that is still held |
| Gpio.Tracker.Renew | pi/portal.py:119-128 | release if held, then request; a request that raises leaves the line released and forgotten |
| PortalSlot.SlotRecord.constructor | pi/portal.py:464-487 | a new slot is an initial state of the machine, so a reachable one |
| PortalSlot.SlotRecord.HandleHotplug | pi/portal.py:1129-1269 | an event that is accepted, one that is ignored and one that starts a recovery change the slot exactly as the machine's hotplug step does, and nothing else |
| PortalSlot.SlotRecord.NoteEvent | pi/portal.py:1181-1200 | append, prune and the quiet-period check |
| PortalSlot.SlotRecord.FinishHotplug | pi/portal.py:1210-1251 | presence, and the background start or stop that is scheduled |
| PortalSlot.SlotRecord.Poll | pi/portal.py:1112-1118 | a poll of one slot is the poll step: health first, then stale flapping |
| PortalSlot.SlotRecord.RefreshSlotHealth | pi/portal.py:544-552 | a recorded proxy that does not answer is struck off the record, and nothing else changes |
| PortalSlot.SlotRecord.SlotInfo | pi/portal.py:555-571 | the window is pruned and a flapping flag below the threshold cleared |
| PortalSlot.SlotRecord.StartFlapRecovery | pi/portal.py:734-745 | a second recovery is never started |
| PortalSlot.SlotRecord.HandleSerialRecover | pi/portal.py:1506-1522 | the counter is reset even under a running recovery |
| PortalSlot.SlotRecord.DispatchRecovery | pi/portal.py:747-772 | the proxy goes down before USB is unbound |
| PortalSlot.SlotRecord.UnbindAndSpawn | pi/portal.py:752-772 | unbind and the recovery thread, or the end of a recovery without a USB device |
| PortalSlot.SlotRecord.BeginWithoutGpio | pi/portal.py:827-846 | the counter is read, and the third attempt is given up |
| PortalSlot.SlotRecord.FinishWithoutGpio | pi/portal.py:849-858 | after the cooldown the counter is set from the value read before it |
| PortalSlot.SlotRecord.HoldBoot | pi/portal.py:791-813 | BOOT is driven low or the recovery ends; slot and GPIO lines change together |
| PortalSlot.SlotRecord.RaiseEn | pi/portal.py:805-813 | the second half of the EN pulse; a failure goes on to the rebind |
| PortalSlot.SlotRecord.RebindAfterPulse | pi/portal.py:808-814 | USB is rebound after the pulse, before the wait for enumeration |
| PortalSlot.SlotRecord.EnterDownloadMode | pi/portal.py:817-824 | the recovery ends in download mode with a fresh counter |
| PortalSlot.SlotRecord.ReleaseSlotGpio | pi/portal.py:862-890 | release succeeds exactly for a slot with a BOOT pin in download mode whose line could be freed; slot and lines change together |
| PortalSlot.SlotRecord.FinishRelease | pi/portal.py:887-897 | EN is raised and the slot is idle with a fresh counter, also when the pin call raised |
| PortalSlot.SlotRecord.SerialReset | pi/portal.py:626-641 | accepted exactly for a present device with a node |
| PortalSlot.SlotRecord.PulseAndRead | pi/portal.py:648-674 | a port that does not open ends the reset with the slot idle or absent |
| PortalSlot.SlotRecord.SerialResetRestart | pi/portal.py:675-680 | the proxy is started again only if none is running |
| PortalSlot.SlotRecord.SerialMonitor | pi/portal.py:685-699 | accepted exactly for a running slot with a port |
| PortalSlot.SlotRecord.MonitorConnected | pi/portal.py:701-712 | only a connection that opens changes the state |
| PortalSlot.SlotRecord.MonitorClosed | pi/portal.py:713-720 | the end of monitoring overwrites whatever state the slot has |
| PortalSlot.SlotRecord.BgStartLocked | pi/portal.py:1221-1235 | a background start gives up under flapping or recovery, and never starts beside a recorded proxy |
| PortalSlot.SlotRecord.FinishStop | pi/portal.py:450-461 | the stopped process is dead, the record cleared, and the caller goes on |
| PortalSlot.SlotRecord.HandleStart | pi/portal.py:1288-1297 | stop what is recorded, then start |
| PortalSlot.SlotRecord.ScanExistingDevice | pi/portal.py:533-541 | the device is marked present, and a start is begun only for a configured slot without a running proxy |
| PortalSlot.SlotRecord.StartProxyRecorded | pi/portal.py:411-424 | the process is recorded with its URL once its port answers |
| PortalSlot.SlotRecord.StartProxyAbandoned | pi/portal.py:404-430 | a process that died or never listened is not left alive |
| PortalSlot.SlotRecord.StartProxyNotLaunched | pi/portal.py:379-402 | a start without a process changes no record |
| PortalSlot.RefreshHostIp | pi/portal.py:312-322 | the loop reaches every slot |
| Telnet.ParserUndoesPrinter | pi/serial_proxy.py:188-235 | for every token list the parser emits exactly the data and calls, in order, and treats what follows as a fresh start |
| Telnet.EscapedDataRoundTrips | pi/serial_proxy.py:193-201 | data with every IAC doubled comes back byte for byte |
| Telnet.FrameSurvives | pi/serial_proxy.py:203-213 | the parser reads a frame back as its body exactly when the body holds no IAC SE pair |
| Telnet.CutsExactlyWhenSettled | pi/serial_proxy.py:188-235 | reading a stream in two parts gives what reading it at once gives, whatever follows, exactly when the first part ends in no lone IAC, no unfinished negotiation and no open COM-PORT subnegotiation |
| Telnet.CutCommandIsTakenForData | pi/serial_proxy.py:193-235 | the shortest such loss: a DO cut after its IAC goes out as data and is not answered |
| ComPort.SettingsStayValid | pi/serial_proxy.py:237-311 | any client stream, with any setters raising, leaves data size in 5..8 and baud rate in 1..2^32-1 |
| ComPort.OneAnswerEach | pi/serial_proxy.py:203-328 | with setters that work, each subnegotiation with subcommand up to 155 and each agreed negotiation gets exactly one message, in order, and nothing else is sent |
| ComPort.AnswersReportTheValueInForce | pi/serial_proxy.py:243-264 | baud rate, data size and parity answers report the value in force, and legal requests take effect |
| ComPort.StopSizeAnswer | pi/serial_proxy.py:266-272 | the answer names the stop size in force exactly when 1.5 was not asked for |
| ComPortRequests.ControlRequest | pi/serial_proxy.py:277-296 | after any stream that leaves nothing open, control 8 and 9 set and clear DTR, 11 and 12 RTS, any other changes nothing; every one is echoed |
| ComPortRequests.ParityRequest | pi/serial_proxy.py:258-264 | a parity code sets the parity that RFC 2217 gives it, an unknown one none, and is answered by the code of the parity set |
| ComPortRequests.StopSizeRequest | pi/serial_proxy.py:266-272 | a stop-size code sets the size that RFC 2217 gives it, an unknown one a single bit; all but two bits are answered with 1 |
| ComPortRequests.DataSizeRequest | pi/serial_proxy.py:251-256 | a data size of 5 to 8 is set, any other ignored; the answer is the size in force |
| ComPortRequests.BaudRequest | pi/serial_proxy.py:243-249 | the number that four octets spell becomes the baud rate unless it is 0; the answer spells the rate in force |
| ComPortRequests.NegotiationAnswered | pi/serial_proxy.py:218-230 | DO and WILL of the COM-PORT option are answered with WILL and DO, no other negotiation is answered |
| ComPortRequests.OtherRequest | pi/serial_proxy.py:298-308 | any other request leaves the port alone and is echoed if its command is at most 155 |
| ComPortRequests.RaisingSetter | pi/serial_proxy.py:237-311 | a setter that raises leaves the old or the new value and no answer; a request that assigns nothing cannot fail |
| TelnetPeer.AnswerReachesClient | pi/serial_proxy.py:321-328 | a client that keeps to RFC 855 reads an answer as meant exactly when neither its command is nor its payload holds a 255 |
| TelnetPeer.BaudAnswerReachesClient | pi/serial_proxy.py:243-249 | so a baud-rate answer, exactly when no octet of the rate in force is 255 |
| TelnetPeer.RequestUnderstoodExactly | pi/serial_proxy.py:203-213 | the first n octets of a request whose 255s the client doubles are taken as meant exactly when nothing but 255 comes after a 255 among them |
| TelnetPeer.DoubledBaudRequest | pi/serial_proxy.py:243-249 | so a doubled baud-rate request has the effect meant exactly under that condition on its four octets |
| TelnetPeer.OneOctetRequestUnderstood | pi/serial_proxy.py:251-296 | a doubled data-size, parity, stop-size or control request always has the effect meant |
| TelnetPeer.WholeRequestUnderstood | pi/serial_proxy.py:298-308 | a doubled request that is echoed whole arrives as meant exactly when it holds no 255 |
| TelnetPeer.MisreadBaud | pi/serial_proxy.py:243-249 | a doubled request for 130816 baud sets 131071 |
| ComPort.BigEndianRoundTrips | pi/serial_proxy.py:244-249 | the four-octet number survives both conversions |
| SerialProxy.RFC2217Proxy.HandleRfc2217 | pi/serial_proxy.py:188-235 | the loop outputs the parsed data, and port and client see the reactions to the parsed calls in order |
| SerialProxy.RFC2217Proxy.HandleHead | pi/serial_proxy.py:194-233 | one turn of the loop consumes one command, negotiation, subnegotiation or byte |
| SerialProxy.RFC2217Proxy.HandleComPortOption | pi/serial_proxy.py:237-311 | the option handler in place; a raising setter leaves no answer |
| SerialProxy.RFC2217Proxy.SendComPortOption | pi/serial_proxy.py:321-328 | a frame goes out only to a client and only if its command fits an octet |
| SerialProxy.RFC2217Proxy.SendTelnet | pi/serial_proxy.py:313-319 | three octets to a connected client |
| UrlForm.UrlDecode | test-firmware/main/wifi_prov.c:78-91 | decoding in place, with the write index never past the read index and nothing behind the new end disturbed |
| UrlForm.EncodeRoundTrips | pi/portal.py:927-930 | decoding undoes the portal's encoding for every byte string |
| UrlForm.EscapeIsRead | test-firmware/main/wifi_prov.c:84-88 | two hexadecimal digits after a percent sign, of either case, are the byte they spell |
| UrlForm.OddEscapeIsRead | test-firmware/main/wifi_prov.c:84-88 | if the first is no digit the escape is a zero byte; if only the second is none, the first counts alone |
| UrlForm.SignedEscapeIsRead | test-firmware/main/wifi_prov.c:84-88 | white space or a sign before one digit is taken as the number reader takes it |
| UrlForm.PlainIsRead | test-firmware/main/wifi_prov.c:83-89 | a plus is a space, and any other byte that starts no whole escape stands for itself |
| UrlForm.TruncationHarmlessExactly | test-firmware/main/wifi_prov.c:103-107 | cutting the encoded text to a buffer is harmless exactly when it fits, or loses only the tail of a last "%" or "%2" |
| UrlForm.ScanForKey | test-firmware/main/wifi_prov.c:98-100 | the scan finds the first `key=` at the start of a field, and reports none only if there is none |
| UrlForm.SkipMissesNothing | test-firmware/main/wifi_prov.c:99-100 | no match starts inside an occurrence of the key that is skipped |
| UrlForm.FirstMatchIsLookup | test-firmware/main/wifi_prov.c:98-103 | the first match is the first field with that name, and its value ends at the next `&` |
| UrlForm.NoMatchNoField | test-firmware/main/wifi_prov.c:98-110 | no match means no field with that name |
| UrlForm.FormGet | test-firmware/main/wifi_prov.c:94-111 | the buffer holds the decoded value of the first field with that name, cut to its size; untouched when there is none |
| UrlForm.ConnectPost | test-firmware/main/wifi_prov.c:113-156 | the handler stores the body's credentials, and nothing when the SSID is missing or empty |
| UrlForm.MissingFields | test-firmware/main/wifi_prov.c:132-146 | a missing or empty SSID stores nothing, a missing password an empty one |
| UrlForm.CredentialsRoundTrip | test-firmware/main/wifi_prov.c:113-146 | of what the portal posts the firmware receives at most 255 bytes, and stores both values exactly when the SSID is not empty, no value holds a NUL and both fit; encoded forms of at most 32 and 64 bytes do, and are received whole |
| Dns.ParseDnsName | test-firmware/components/dns_server/dns_server.c:71-97 | the label loop in place computes the name and its end, inside both buffers, and terminates |
| Dns.NameRoundTrips | test-firmware/components/dns_server/dns_server.c:71-97 | every list of non-empty labels that fits is read back dotted, with the offset just past its terminator |
| Dns.AcceptedNameIsLabels | test-firmware/components/dns_server/dns_server.c:71-97 | whatever is accepted is a list of labels on the wire of which only the first may be empty |
| Dns.RootNameMisread | test-firmware/components/dns_server/dns_server.c:78-96 | the root name is read one octet too far |
| Dns.SelectIp | test-firmware/components/dns_server/dns_server.c:151-166 | the scan takes the first rule that settles the name, where a fixed address counts only if the table's first rule has one |
| Dns.ParseDnsRequest | test-firmware/components/dns_server/dns_server.c:100-184 | for every request, question count and rule table: the code and reply of the reference, and no access out of bounds |
| Dns.AnswerQuestion | test-firmware/components/dns_server/dns_server.c:137-181 | an A question under a rule with an address writes exactly the answer record, any other question nothing; it fails exactly when the name does not fit |
| Dns.FirstQuestionOnly | test-firmware/components/dns_server/dns_server.c:131-182 | any number of questions has the effect of the first one alone, whatever it asks, if it lies within the request |
| Dns.ReplyInGeneral | test-firmware/components/dns_server/dns_server.c:100-184 | the whole reply for any question count: the request with QR and counts patched, the first question's record or a blank, and blanks |
| Dns.HonestCountExactly | test-firmware/components/dns_server/dns_server.c:123-183 | the answer count names the records in the reply exactly if nothing was asked, or one question was and it was answered |
| Dns.OtherTypeGetsBlank | test-firmware/components/dns_server/dns_server.c:144-183 | a single question of another type is replied to with one answer counted and sixteen zero octets |
| Dns.AQueryIsAnswered | test-firmware/components/dns_server/dns_server.c:100-184 | an A query that passes the flag test, under a rule with a real address, is answered with the request, QR set, answers counted as questions, and one record |
| DnsReplies.AQueryGetsFirstRule | test-firmware/components/dns_server/dns_server.c:144-181 | every octet of the reply to an A query: the address is that of the first rule named "*" or the queried name that has an interface, or has none in a table whose first address is not zero; zeros instead of the record if that address is zero or there is no such rule |
| DnsReplies.EveryNameGetsTheInterface | test-firmware/main/wifi_prov.c:254 | under the firmware's own one-rule table every A query gets the interface's address |
| DnsReplies.ReplyStartsWithRequest | test-firmware/components/dns_server/dns_server.c:100-184 | every reply starts with the request: ID, other flag bits and all from octet 8 on come back unchanged, QR is set and answers are counted as questions |
| DnsReplies.FailsExactly | test-firmware/components/dns_server/dns_server.c:100-142 | no reply is made exactly if the request or its answers are too long or the first question asked for cannot be read |
| Dns.AnswerNamesTheQuestion | test-firmware/components/dns_server/dns_server.c:170-180 | the record's pointer resolves to the queried name; type, class and address are those asked for and selected |
| Dns.EncodedNameIsRead | test-firmware/components/dns_server/dns_server.c:71-97 | an independent reader of wire names gets the labels back |
| Dns.FlagTestIsNotTheOpcode | test-firmware/components/dns_server/dns_server.c:115-118 | a request is refused exactly if bits 3 to 6 of octet 3 are not all zero; that is the opcode's verdict exactly if those of octet 2 agree |
| Dns.FlagTestErrsBothWays | test-firmware/components/dns_server/dns_server.c:115-118 | a standard query with the AD bit is refused, a status query is not |
| LineReader.ReadSerialLines | pi/portal.py:591-623 | the report is that of the whole stream, so it does not depend on how reads cut it |
| LineReader.MatchReportedExactly | pi/portal.py:613-622 | a match is reported exactly when some non-blank stripped line holds the pattern; it is the first, and the last line reported |
| LineReader.StripTrims | pi/portal.py:612 | a line is a blank, its stripped form and a blank, and the stripped form has no blank at either end |
| LineReader.SplitIsExact | pi/portal.py:604 | no piece holds a newline, and joined by newlines the pieces are the text |
| LineReader.NonBlankByPiece | pi/portal.py:611-614 | each piece gives its stripped form, a blank one nothing, in order |
| LineReader.ContainsExactly | pi/portal.py:615 | a pattern is found exactly in a line that is something, the pattern, and something more |
| LineReader.SplitContinues | pi/portal.py:604-609 | splitting a longer text keeps all pieces but the last, which is continued |
| LineReader.CollectAppends | pi/portal.py:611-616 | walking over lines in two parts is walking over them at once, unless the first part matched |
| LineReader.CollectIsReference | pi/portal.py:611-616 | the walk gives the non-blank stripped lines up to and including the first that matches |
| LineReader.TakeChunk | pi/portal.py:602-616 | one read keeps report and buffer on the way to the whole stream's report |
| Human.OneRequestAtATime | pi/portal.py:1599-1610 | at most one request is open, and its thread waits on its own event though it reads a global outside the lock |
| Human.OneAnswerPerRequest | pi/portal.py:1634-1654 | each request accepts at most one Done or Cancel |
| Human.EveryRequestRepliedInOrder | pi/portal.py:1599-1624 | every accepted request but the open one has exactly one reply, in the order of requests |
| Human.RepliesTellTheButton | pi/portal.py:1610-1624 | a reply without time-out says confirmed exactly when its request accepted Done, and no reply says confirmed otherwise |
| Human.StatusShowsTheOpenRequest | pi/portal.py:1626-1632 | the page shows a message exactly while a request waits for its button, and it is that request's |
| Human.DoneReportedExactly | pi/portal.py:1610-1624 | an accepted Done is reported exactly when the wait had not timed out |
| Human.LateDoneIsLost | pi/portal.py:1610-1624 | a Done pressed between time-out and reply is accepted, and the reply says it was not confirmed |
| Human.RequestTakenExactly | pi/portal.py:1593-1605 | a request with a message is taken exactly when none is open; a refused one leaves no trace |
| Human.ButtonTakenExactly | pi/portal.py:1634-1654 | a button is accepted exactly while a request is open that has had none |
| Human.RequestWaits | pi/portal.py:1610 | a request that has had no button waits on its own event |
| Human.ButtonIsReported | pi/portal.py:1610-1620 | a button that wakes the waiting thread makes the reply, which says what was pressed, and frees the desk |
| Human.TimeOutIsReported | pi/portal.py:1610-1624 | a wait that times out without a button is reported unconfirmed and frees the desk |
| Human.HumanDesk.HandleHumanInteraction | pi/portal.py:1589-1605 | a request is opened, or refused without a trace |
| Human.HumanDesk.FinishInteraction | pi/portal.py:1612-1624 | the desk is cleared and the reply made from the value read |
| Human.HumanDesk.HandleButton | pi/portal.py:1634-1654 | a button counts exactly while a request is pending |
| Human.HumanDesk.HandleHumanStatus | pi/portal.py:1626-1632 | pending exactly while there is an event that is not set |
| Wifi.NeverBothRoles | pi/wifi_controller.py:224-347 | over any sequence of lock sections of any calls the access point and the station are never both active |
| Wifi.CallEffect | pi/wifi_controller.py:95-131 | a complete call in closed form, refused calls included |
| Wifi.SerialModeHasNoAp | pi/wifi_controller.py:95-131 | over complete calls serial mode means no access point, none remembered, and a station of the mode's own network if any |
| WifiThreads.SerialApExactly | pi/wifi_controller.py:229-232 | over every interleaving of checks and sections, in serial mode an access point is active exactly if its start passed the mode check before the latest switch, ran after it, and nothing stopped it since |
| WifiThreads.OtherStationExactly | pi/wifi_controller.py:120-129 | likewise the station is on another network than the mode's exactly if a join of it was begun before the latest switch, by its check or by an earlier switch, ran after it, and nothing dropped it since |
| WifiThreads.AloneIsDo | pi/wifi_controller.py:224-347 | starts, stops, joins and shutdowns that are not interrupted do what the complete call does |
| WifiThreads.LeaveAloneIsDo | pi/wifi_controller.py:504-514 | so does a leave with its restart |
| WifiThreads.SetModeAloneIsDo | pi/wifi_controller.py:95-131 | so does a mode switch with its join and its way back |
| WifiThreads.StartOvertaken | pi/wifi_controller.py:229-232 | a run that ends in serial mode with an active access point: the start is checked, a whole set_mode passes, the start runs |
| Wifi.SavedIsRemembered | pi/wifi_controller.py:374-387 | in every history the saved configuration is that of the access point at the last join, if no leave or serial switch came since |
| Wifi.LeaveRestores | pi/wifi_controller.py:504-514 | a leave brings back exactly the remembered access point, or leaves the present one alone |
| Wifi.JoinThenLeaveRestores | pi/wifi_controller.py:504-514 | join from access point C, any calls that neither join, leave nor go serial, then a leave: C is back |
| Wifi.SecondJoinForgets | pi/wifi_controller.py:380-386 | two joins in a row lose the access point |
| WifiStations.TableIsLastWord | pi/wifi_controller.py:354-367 | a station's entry is the last word of its lease events since the table was last cleared |
| WifiStations.DeliveredOnceInOrder | pi/wifi_controller.py:680-698 | every event is delivered once and in order, or still waits |
| WifiStations.LeaseTold | pi/wifi_controller.py:354-367 | what each lease action notes and announces, with the MAC address in small letters and the host name if there is one |
| WifiStations.SectionTold | pi/wifi_controller.py:224-347 | every radio section but a leave and the way back from a failed mode switch empties the station table, and none touches the queue |
| WifiStations.LowerExactly | pi/wifi_controller.py:356 | exactly the letters A to Z are changed, to a to z |
| WifiStations.ReadersDrain | pi/wifi_controller.py:680-698 | as many readers as events wait empty the queue, and everything ever queued is delivered |
| WifiController.Controller.ApStart | pi/wifi_controller.py:224-311 | in testing mode exactly this access point is up or nothing is; in serial mode the call is refused and changes nothing, the station table included |
| WifiController.Controller.StartApLocked | pi/wifi_controller.py:232-311 | both roles go down first, and the access point counts as active only if both daemons started |
| WifiController.Controller.ApStop | pi/wifi_controller.py:314-336 | the access point and its stations are gone |
| WifiController.Controller.StaJoin | pi/wifi_controller.py:374-501 | in testing mode the active access point is remembered and the station is up only on success; in serial mode the call is refused |
| WifiController.Controller.JoinLocked | pi/wifi_controller.py:380-501 | the active access point is saved, or an older one forgotten, even if the join then fails |
| WifiController.Controller.StaLeave | pi/wifi_controller.py:504-514 | leave, then restart what was saved; it is forgotten even if that fails |
| WifiController.Controller.SetMode | pi/wifi_controller.py:95-131 | a failed join sets the mode back with both roles down; naming the present mode or no network changes nothing |
| WifiController.Controller.Shutdown | pi/wifi_controller.py:573-580 | everything stopped, mode back to testing |
| WifiController.Controller.HandleLeaseEvent | pi/wifi_controller.py:354-367 | the table and the queue take the event together |
| WifiController.Controller.GetEvents | pi/wifi_controller.py:680-698 | the queue is drained in order; a long poll on an empty queue brings what arrives |
| WifiController.Controller.ApStatus | pi/wifi_controller.py:339-347 | no stations are shown while the access point is down |

## Left out

- Operating-system calls, sockets, sysfs writes, gpiod, pyserial, hostapd, wpa_supplicant and DHCP: their outcomes are free choices of each step; a slot has one clock that never goes back, and of the sleeps only the cooldown of a recovery without GPIO is timed by it.
- Granularity: a hotplug event (up to the recovery's lock), a poll of one slot and a `_gpio_set` call are one step each; a preemption between two plain assignments is not modelled. The same holds of a Wi-Fi lock section, so a lease event that arrives during a start counts as coming before or after it.
- USB state is the last command written to sysfs; a write that the kernel refuses counts as written.
- Process ids are taken as fresh while a process lives; reuse of a dead pid is not modelled. A dead process may still answer signal 0 as a zombie.
- A slot without a port, or with port 0, never answers on its port.
- The boot scan happens at any moment at which nothing else is under way on the slot.
- Activity log texts, `last_error` texts and response bodies; parsing of a slot key into a USB device name, which is a configuration value here.
- Line reader: text is ASCII, so UTF-8 replacement at a cut inside a character is not modelled; the deadline is the end of the list of reads.
- Human interaction: the time-out value and its conversion; a wait may time out at any moment.
- Connect handler: a body that parses as JSON (cJSON is not part of this model); one receive call brings the body, up to 255 bytes of it.
- Dns.FirstQuestionOnly: a first question that runs past the end of the request is not spoken of; the answer would overwrite part of it before it is looked at again.
- DnsReplies.FailsExactly: likewise only for a first question that ends within the request.
- Dns.SelectIp: for an interface that is not known the code reads an address it never set; the model takes 0.0.0.0, that is, no answer.
- DNS: `char` is unsigned and the machine little-endian, as on the ESP32; the rule table and interface addresses are parameters.
- Serial proxy: a send that fails is ignored by the code and is not told apart from one that works; the pass-through of data to and from the serial port and the log files.
- `pi/plain_rfc2217_server.py`, `pi/ble_controller.py`, Wi-Fi scanning and relay, firmware upload and download, the test-progress panel, the user interface, and the rest of the firmware.
