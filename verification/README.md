# Verification of the fuji-iot wired-controller protocol

A Dafny model of the serial protocol between an air-conditioning unit (the master) and the wired controller that this
repository implements, together with the controller's loop, its clients and the unit's infra-red remote.

## Structure

The model has two levels, and the lower one is proved to implement the upper one.

- **Bytes and objects.** `FujiBits`, `FujiRegister` and `FujiFrame` hold bytes, the bit-packed five-byte status
  register and the eight-byte frames. The classes `StatusRegister`, `MasterFrame`, `ControllerFrame`, `AcState`,
  `ProtocolHandler`, `UnitSim` and `Controller` change their fields and buffers in place, share the register bytes
  through an accessor object as the source does through a pointer, and use the source's masks and shifts. Every method
  is proved against a function on the object's `View()`.
- **Records and runs.** `FujiAcState`, `FujiProtocolHandler`, `FujiAcUnitSim` and `FujiSystem` define those functions
  and one transition system `Sys` whose steps are: the loop reads a master frame outside the mutex, the loop gets no
  frame, the loop handles the frame and delivers the reply under the mutex, a client updates, the remote commands.
  Runs are arbitrary interleavings. The remaining modules prove properties of all runs.

A byte is a record of eight bits. What codes, masks and constants mean on the wire is stated in numbers through the
value of a byte, apart from the definitions that encode and decode: `ModeGetter`, `FanGetter`, `RegisterLayout`,
`FrameLayout`, `HeaderBytes`, `PayloadBytes`, `BuiltFrameShows`, `UnitTakesOver`, `EmittedInNumbers`, `RequestOnTheWire`
and `StatusFromTheWire`. Temperatures are full bytes on both sides: a setpoint from 128 on spills into the
economy bit, as the unmasked setter of the source makes it. A client step is any sequence of setter calls on the local
state with `ready` cleared; the service's update request is the special case `ChangesOf`. A waiting client is released
in any state where `ready` holds.

The unit of a run may start with any settings, also with a controller already registered. The first main results are
`NoUpdateReturnsEarly`, `SettlesInFiveOrSix` with `FirstUpdateTakesExactly`, `UnsetFieldsAreKept` with `LookThenUpdate`,
`RecoveryIffAsked`, `ReplacementReleases`, `HandshakeRuns`, `PendingChangeIsDrained`, `ErrorsAreRemembered` and the method
`Controller.UpdateAndReport`, whose waiting loop terminates by the same ranking function that bounds the runs.

## Where the code falls short of what one would expect

- Unset fields keep their value exactly if local and unit settings agree on them when the update is issued, as far as a
  write delivers them: `UnsetFieldsAreKept` for any number of clients, `UnsetKeptIff` for one request. A client can
  establish that by asking for the status first, with an empty update, twice (`TwoStatusCallsAgree`; once is not enough,
  `OneStatusCallIsNotEnough`), and then gets what the interface promises (`LookThenUpdate`). A client that does not look
  writes the controller's defaults over the unit (`DefaultsAreWritten`): a request for a high fan alone switches a unit
  that cools to 18 degrees to automatic and 20 (`FanRequestChangesMode`).
- A unit replaced at any point of a run releases clients before it is registered exactly if some reply repeats the one
  before with no update after it: `ReplacementReleases`, for arbitrary clients. Without updates the state before the
  replacement decides (`UndisturbedReplacementReleases`): the login query was out with nothing pending, the settings about
  to be written equal the last write, or an old frame under way is echoed twice. `ReplacementCanReleaseEarly`,
  `RepeatedRequestReleasesEarly`, `OldFrameReleasesEarly` and `RequestsAfterReplacementReleaseEarly` are the ways there.
- A replaced unit is registered again exactly if an old login frame is handled, or some status frame is answered by the
  login query and one more frame is handled after it (`RecoveryIffAsked`). That needs a frame that shows the loss with no
  change pending, or a login query already due; a client that updates before every frame prevents it
  (`NaggingStarvesRecovery`).
- A waiting client is released by exactly the frames of `ReleasedIff`; with nothing pending, by two frames in a row with
  the same echo (`ReleasedByTwoAlike`). A remote that changes a setting before every frame keeps it waiting for ever
  (`TogglingStarvesClients`).
- A unit that starts with its error bit set stops the protocol for good exactly once three frames were handled, and a
  status frame among them with no change pending: `ErrorTraps`, `TrapIsForEver`.
- The settings that a client reads when it is released are not always the unit's, even with nobody else acting and no
  swing step pending, which the service never has (`ServiceNeverSwings`). They are exactly if the unit can show what was
  asked for or the last frame was no write (`ReleasedSettings`), and it is a write exactly if the request repeated the
  last write and one frame was handled (`ReleasedByRepetition`). The setpoint then reads back as any byte, otherwise
  exactly for 1..127, or 18 in FAN mode (`ReleasedSetpoint`): a FAN request for 25 degrees, issued twice, reports 25 while
  the unit shows 18 (`RepeatedFanReadsWrong`).

In every run of the service, `ready` implies that everything is merged (`ReadyMeansMerged`). The local state's setters
could break that, if called directly with swing steps, which the service never does: `ReadyMeaning` gives the exact
condition, `ReadyBeforeMerged` the run.

## Model

| member | source | states |
|---|---|---|
| FujiBits.NarrowIsModulo | controller/fuji_ac_controller.cc:71-73 | passing a setpoint as a byte reduces it modulo 256, also when negative |
| FujiRegister.ModeGetter | protocol/fuji_register.cc:76-91 | the masked, shifted code is bits 1 to 3 of the byte's value; 1 to 5 read as FAN, DRY, COOL, HEAT, AUTO and every other code as unknown |
| FujiRegister.FanGetter | protocol/fuji_register.cc:107-123 | the same for bits 4 to 6; 0 to 4 read as AUTO, LOW, MEDIUM, HIGH, MAX |
| FujiRegister.MaskGetters | protocol/fuji_register.cc:98-188 | all other getters test or extract the bits under the source's masks |
| FujiRegister.RegisterLayout | protocol/fuji_register.cc:21-59 | the fields other than mode and fan as numbers: their divisor and modulus in the byte's value |
| FujiRegister.WriteFieldsRefine | protocol/fuji_register.cc:71-184 | any sequence of setter calls on any buffer decodes to the same record updates and leaves every unowned bit and neighbouring byte alone |
| FujiRegister.SettersCommute | protocol/fuji_register.cc:71-184 | setters of different fields commute byte for byte, except exactly a temperature from 128 on with economy off |
| FujiRegister.TemperatureSetterIsExact | protocol/fuji_register.cc:143-150 | the temperature setter reads back exactly below 128, and exactly then spares a clear economy bit |
| FujiRegister.StatusRegister.SetMode | protocol/fuji_register.cc:71-74 | the in-place write changes the mode of the decoded register and only the mode bits of one byte, which then hold 0 for unknown, 1 FAN, 2 DRY, 3 COOL, 4 HEAT, 5 AUTO |
| FujiRegister.StatusRegister.SetFan | protocol/fuji_register.cc:102-105 | the same for the fan bits, 0 AUTO to 4 MAX and 5 unknown |
| FujiRegister.StatusRegister.SetTemperature | protocol/fuji_register.cc:143-146 | the in-place write changes the temperature, and economy when the argument spills |
| FujiFrame.ReplyRoundTrip | protocol/fuji_frame.cc:169-221 | query, login bit, write bit and payload that the unit decodes are those the controller encoded |
| FujiFrame.EncodeInjective | protocol/fuji_frame.cc:260-262 | byte equality of controller frames is equality of what they say |
| FujiFrame.SendableFollowsGrammar | protocol/fuji_frame.cc:156-221 | the byte grammar of controller frames admits exactly the replies the handler may send (and an unknown query) |
| FujiFrame.FrameLayout | protocol/fuji_frame.cc:68-106 | address, register type, payload, login and write bit of any eight bytes, in numbers |
| FujiFrame.HeaderBytes | protocol/fuji_frame.cc:156-199 | the first three bytes of every controller frame in numbers: 32, 129 or 161 with the login bit, and 0, 8, 16 or 32 for settings, write, error query and login query |
| FujiFrame.PayloadBytes | protocol/fuji_ac_protocol_handler.cc:92-107 | the payload of every controller frame in numbers, with the sensor value 47 |
| FujiFrame.MasterFrame.WithDestination | protocol/fuji_frame.cc:79-82 | the destination is replaced in place and the unknown bit kept |
| FujiFrame.ControllerFrame.WithQueryRegister | protocol/fuji_frame.cc:169-172 | bits 4 and 5 hold 0 for STATUS, 1 ERROR, 2 LOGIN, 3 unknown; the other bits, login and write among them, are kept |
| FujiAcState.ApplyAllFrame | protocol/fuji_ac_state.cc:23-81 | user changes clear the merged flag, if there are any, and leave the observations alone |
| FujiAcState.FilledFromZero | protocol/fuji_ac_state.cc:87-98 | building a response in a zeroed payload over the sensor byte yields exactly the encoded panel |
| FujiAcState.BuiltFrameShows | protocol/fuji_ac_state.cc:87-98 | a frame built from a local state shows it in numbers: on bit, mode, fan, setpoint modulo 128 with economy or spill, swing, swing step; nothing of economy and setpoint in FAN mode |
| FujiAcState.AcState.constructor | protocol/fuji_ac_state.h:59-68 | the defaults: off, AUTO, fan AUTO, 20 degrees, everything else clear, and merged |
| FujiAcState.AcState.BuildStatusRegisterResponse | protocol/fuji_ac_state.cc:87-98 | on any buffer: the decoded result, the three bytes written, and nothing else; FAN mode leaves the temperature byte alone |
| FujiAcState.AcState.MergeFromMasterStatusRegister | protocol/fuji_ac_state.cc:100-111 | every setting, the error flag and the presence become the register's, the pending swing step is kept, and the state counts as merged |
| FujiProtocolHandler.ProtocolHandler.SendStatusFrame | protocol/fuji_ac_protocol_handler.cc:92-124 | the frame's bytes, and what becomes of merged flag and swing step |
| FujiProtocolHandler.ProtocolHandler.UpdateFromMasterStatusRegister | protocol/fuji_ac_protocol_handler.cc:141-156 | error and login reads are noted against the state before and after the merge |
| FujiProtocolHandler.ProtocolHandler.HandleMasterFrame | protocol/fuji_ac_protocol_handler.cc:29-76 | for any eight bytes: the new state, whether there is a reply, and its bytes, as the record-level handler says |
| FujiProtocolHandler.AnswersShowLocal | protocol/fuji_ac_protocol_handler.cc:92-139 | for every handler and master frame, an answer that is no query shows the current local state in its payload bytes |
| FujiDelivery.LoginAnswer | protocol/fuji_ac_protocol_handler.cc:126-139 | every login frame is answered with the login bit and no write bit, by a payload that as a plain write would leave any unit with the local settings; nothing else changes |
| FujiDelivery.StatusAnswer | protocol/fuji_ac_protocol_handler.cc:92-124 | the same for status frames that are not answered by a query, with the write bit exactly if a change is pending |
| FujiDelivery.UnitTakesOver | sim/fuji_ac_unit_sim.cc:65-91 | what the unit makes of any eight bytes, in numbers: next register, registration, settings of a write, 18 degrees and magic 4 in FAN mode |
| FujiAcUnitSim.UnitSim.GetNextMasterFrame | sim/fuji_ac_unit_sim.cc:34-63 | all eight bytes of the frame: the register last asked for, its type, the unknown bit set and the controller's address; and of the status register only byte 5 changes, the swing step before and the magic after |
| FujiAcUnitSim.EmittedInNumbers | sim/fuji_ac_unit_sim.cc:26-28 | the bytes of status, error and login frames in numbers |
| FujiAcUnitSim.MagicNumbers | sim/fuji_ac_unit_sim.cc:37-93 | what frames and remote commands leave of magic and swing step, in numbers |
| FujiAcUnitSim.UnitSim.PushControllerFrame | sim/fuji_ac_unit_sim.cc:65-91 | for any eight bytes: next query, registration and settings taken over |
| FujiAcUnitSim.UnitSim.Command | sim/fuji_ac_unit_sim.cc:93-142 | a remote command changes its field through the shared accessor and marks the register |
| FujiHandlerRuns.StutterInvariance | protocol/fuji_ac_protocol_handler.cc:29-59 | frames for others, error frames and unknown frames can be deleted from any input without changing replies or final state |
| FujiHandlerRuns.OnlyReadBitsMatter | protocol/fuji_frame.cc:68-106 | frames that agree on the listed bits are handled alike; update magic, swing step, byte 4 of the payload and unknown header bits have no influence |
| FujiHandlerRuns.PendingChangeIsDrained | protocol/fuji_ac_protocol_handler.cc:29-76 | against arbitrary master frames a pending change stays as it is until written; each status frame answers the next item of the drain and lowers the burden by one; merged exactly when it is empty |
| FujiHandlerRuns.SwingStepIsOneShot | protocol/fuji_ac_protocol_handler.cc:109-122 | against arbitrary master frames exactly one write carries a requested swing step, once the due queries are out |
| FujiHandlerRuns.ErrorStep | protocol/fuji_ac_protocol_handler.cc:61-74 | one step of the error bookkeeping; an error query is sent only when no login query is due |
| FujiHandlerRuns.LoginStep | protocol/fuji_ac_protocol_handler.cc:61-67 | one step of the login bookkeeping, for every handler: due with a register taken over that does not know the controller, and asked for before anything else |
| FujiHandlerRuns.ReportsAreLast | protocol/fuji_ac_state.cc:100-111 | over any inputs, the error flag and the presence are those of the last status frame handled while merged |
| FujiHandlerRuns.ErrorsAreRemembered | protocol/fuji_ac_protocol_handler.cc:48-76 | over any inputs, an error query is owed exactly when two registers taken over in a row differed in their error bit and no later query covers that |
| FujiHandlerRuns.NoErrorQueryWithoutCause | protocol/fuji_ac_protocol_handler.cc:68-74 | queries made and still owed never exceed the changes of the error bit between registers taken over |
| FujiHandlerRuns.AnswersFollowGrammar | protocol/fuji_ac_protocol_handler.cc:78-139 | over any inputs, every reply's bytes follow the grammar |
| FujiInvariants.RunInv | controller/fuji_ac_controller.cc:131-147 | every interleaving keeps the login phases, the fit of the frame under way, and the meaning of `ready` |
| FujiRegistration.HandshakeRuns | protocol/fuji_ac_protocol_handler.cc:48-67 | from any reachable state the replies are what is left of one login query and one login frame, then settings without login bit; every frame is answered, and all but the queries carry the local settings of their time |
| FujiRegistration.RegistersInTwoCycles | sim/fuji_ac_unit_sim.cc:50-72 | from power-on, registered exactly from the second handled frame on |
| FujiRegistration.RunsFollowGrammar | protocol/fuji_frame.cc:156-221 | every frame of every run follows the byte grammar and is never the default frame |
| FujiDelivery.WriteTakesPrecedence | protocol/fuji_ac_protocol_handler.cc:41-47 | whatever the remote did, a delivered write makes the unit's settings the delivered local ones, equal to them exactly when showable, and the next status frame merges back to the same |
| FujiDelivery.OnlyWritesChangeSettings | sim/fuji_ac_unit_sim.cc:73-90 | no other reply changes the unit's settings |
| FujiDelivery.WriteThroughTheWire | protocol/fuji_ac_state.cc:87-98 | the same through encoding and decoding of the bytes |
| FujiDelivery.PendingOrDelivered | controller/fuji_ac_controller.cc:22-76 | after an update, either a write with all changes so far has been taken over, or the changes wait and no client is released |
| FujiDelivery.NoUpdateReturnsEarly | controller/fuji_ac_controller.cc:74-75 | for all clients and interleavings, `ready` after an update implies that a write carrying its changes was taken over since |
| FujiDelivery.ReadyMeaning | controller/fuji_ac_controller.cc:137-144 | `ready` implies registration, and merged exactly when the last frame carries no swing step |
| FujiDelivery.ReadyBeforeMerged | protocol/fuji_ac_state.cc:71-74 | two direct calls of the swing step setter, each followed by a cycle, send two equal frames with one write still to go; no run of the service does that |
| FujiConvergence.Converges | controller/fuji_ac_controller.cc:131-147 | from every reachable state each handled frame of a quiet run lowers the rank; at zero the system is settled |
| FujiConvergence.SettlesInFiveOrSix | controller/fuji_ac_controller.cc:131-147 | five handled frames settle the system, six with a pending swing step |
| FujiConvergence.SettledStays | controller/fuji_ac_controller.cc:131-147 | a settled system repeats one frame without write bit and changes nothing on either side |
| FujiConvergence.FirstUpdateTakesExactly | controller/fuji_ac_controller.cc:137-144 | the bounds are tight: a first update is released by exactly the fifth handled frame, or the sixth |
| FujiConvergence.ReleasedIff | controller/fuji_ac_controller.cc:137-144 | in any reachable state, exactly which handled frame sets `ready`: registered, and the settings frame now due equals the last one |
| FujiConvergence.ReleasedByTwoAlike | controller/fuji_ac_controller.cc:131-147 | over runs without updates, once nothing is pending, `ready` is set exactly by two frames handled in a row that have the same echo |
| FujiConvergence.TogglingStarvesClients | controller/fuji_ac_controller.cc:141-143 | a remote that changes a setting before every frame never lets a waiting client go |
| FujiMonitor.PassiveMonitor | protocol/fuji_ac_protocol_handler.cc:109-122 | without client changes no write bit is ever sent, and the unit's settings are the fold of the remote's commands |
| FujiMonitor.MonitorCopies | protocol/fuji_ac_protocol_handler.cc:141-149 | whatever the remote does between reading and handling a status frame, the local settings become the unit's as they were at the reading, and a registered controller echoes them |
| FujiSwing.SwingStepMovesFlapOnce | sim/fuji_ac_unit_sim.cc:37-45 | in the composed system a pending swing step moves the flap exactly once, in the first frame after registration |
| FujiSwing.PulseIsNeverShown | sim/fuji_ac_unit_sim.cc:37-45 | no master frame under way ever carries the swing step |
| FujiRecovery.ReplacedUnitIsRegistered | protocol/fuji_ac_protocol_handler.cc:41-67 | replaced at any point of a run, an old frame under way or not, the unit is registered after exactly one to four handled frames, by what the old frame shows and what is pending, whatever the remote does |
| FujiRecovery.RecoveryIffAsked | protocol/fuji_ac_protocol_handler.cc:41-67 | for arbitrary interleavings, an unregistered unit is registered at the end of a run exactly if an old login frame was handled, or some status frame found the login query due, or showed the loss with no change pending, and one more frame was handled after it |
| FujiRecovery.NaggingStarvesRecovery | protocol/fuji_ac_protocol_handler.cc:41-46 | a client that updates before every frame keeps a replaced unit unregistered for ever |
| FujiRecovery.ReplacementReleases | controller/fuji_ac_controller.cc:141-143 | after a replacement at any point, for arbitrary interleavings and while the unit is unregistered, `ready` holds exactly if it did before and no client updated, or some reply due to a status frame equals the last one and no client updated after it |
| FujiRecovery.UndisturbedReplacementReleases | controller/fuji_ac_controller.cc:141-143 | with no update since the replacement the state before it decides: the login query, the last write, or the echo of the old frame is repeated |
| FujiRecovery.ReplacementCanReleaseEarly | controller/fuji_ac_controller.cc:141-143 | first instance: a unit lost between login query and answer makes two equal queries, which release clients exactly when nothing is pending |
| FujiRecovery.RepeatedRequestReleasesEarly | controller/fuji_ac_controller.cc:141-143 | second instance: any request issued twice around one cycle, with the unit lost before the second write, is released with the new unit unregistered |
| FujiRecovery.OldFrameReleasesEarly | controller/fuji_ac_controller.cc:134-143 | third instance: the unit lost while a frame is under way that shows what was echoed last |
| FujiRecovery.RequestsAfterReplacementReleaseEarly | controller/fuji_ac_controller.cc:141-143 | with updates it happens from any registered state: the same request twice after the replacement |
| FujiErrors.ErrorQueryUnreachable | protocol/fuji_ac_protocol_handler.cc:68-74 | from a unit without error bit no run ever shows, asks for or remembers an error |
| FujiErrors.TrapIsForEver | protocol/fuji_ac_protocol_handler.cc:53-58 | once the error register is asked for, no frame is ever answered again and no update is released |
| FujiErrors.ErrorTraps | protocol/fuji_ac_protocol_handler.cc:41-74 | from power-on with the error bit set, for arbitrary interleavings, the system is trapped exactly once three frames were handled and a status frame among them with no change pending |
| FujiErrors.UndisturbedErrorTraps | sim/fuji_ac_unit_sim.cc:46-49 | without changes by clients that is the third handled frame |
| FujiErrors.TrapReachableIffError | sim/fuji_ac_unit_sim.cc:46-49 | that state is reachable from power-on exactly when the unit starts with its error bit set |
| FujiRequests.UpdateOverlays | controller/fuji_ac_controller.cc:25-73 | the setter calls of an update replace exactly the fields that are set |
| FujiRequests.RequestOnTheWire | controller/fuji_ac_controller.cc:25-73 | what a request makes of the frame that writes it, in numbers, field by field |
| FujiRequests.StatusFromTheWire | controller/fuji_ac_controller.cc:78-129 | what the service reports of a status frame, in numbers, unknown codes as unset |
| FujiRequests.ReadyMeansMerged | controller/fuji_ac_controller.cc:22-76 | in every run whose client steps are update requests, `ready` implies merged |
| FujiRequests.UpdateIsTaken | controller/fuji_ac_controller.cc:22-76 | an undisturbed update is released only with the unit holding the requested settings |
| FujiRequests.UpdateThenStatus | controller/fuji_ac_controller.cc:78-129 | the status after an undisturbed update reports every field set, the setpoint if in 1..127 and not in FAN mode |
| FujiRequests.SettledSetpoint | controller/fuji_ac_controller.cc:71-73 | once settled the setpoint reads back exactly in 1..127, or 18 in FAN mode |
| FujiRequests.ReleasedSettings | controller/fuji_ac_controller.cc:22-76 | when an undisturbed request is released the unit has what was asked for, as far as it shows it; the local settings are the same, unless the last frame was a write: then they are what was asked for, and equal exactly if the unit can show it |
| FujiRequests.ReleasedByRepetition | controller/fuji_ac_controller.cc:140-144 | the last frame is a write at release exactly if the request repeats the write sent last and one frame was handled |
| FujiRequests.ReleasedSetpoint | controller/fuji_ac_controller.cc:71-73 | the setpoint read at release, and exactly when it is the one asked for: 1..255 after a repeated write, otherwise 18 in FAN mode and 1..127 in any other |
| FujiRequests.RepeatedFanReadsWrong | controller/fuji_ac_controller.cc:126 | a FAN request issued twice reports its setpoint, any byte, while the unit shows 18 |
| FujiRequests.ServiceNeverSwings | controller/fuji_ac_controller.cc:22-76 | in every run whose client steps are update requests no swing step is pending |
| FujiUnset.UnsetFieldsAreKept | controller/fuji_ac_controller.proto:57-58 | for arbitrary interleavings, the first write after an update leaves any given unit settings overlaid by all clients' changes exactly if the local settings agreed with them on what the changes leave alone |
| FujiUnset.UnsetKeptIff | controller/fuji_ac_controller.proto:57-58 | the same for one request: unset fields keep their value exactly if both sides agree on every field that the request leaves unset; in FAN mode economy and temperature drop out, and a spilling setpoint covers economy |
| FujiUnset.TwoStatusCallsAgree | controller/fuji_ac_controller.proto:58 | when two empty updates have returned with no other client and no remote command since the first, local and unit settings agree on every field |
| FujiUnset.OneStatusCallIsNotEnough | controller/fuji_ac_controller.cc:133-144 | with a frame under way that is older than a remote command, one empty update returns with local and unit settings different |
| FujiUnset.LookThenUpdate | controller/fuji_ac_controller.proto:57-58 | an update after those is released only with the unit's settings overlaid by the request, and its unset fields are reported as before |
| FujiUnset.DefaultsAreWritten | protocol/fuji_ac_state.h:59-68 | after any request right after power-on, an undisturbed unit keeps its settings through two handled frames and shows the controller's defaults overlaid by the request from the third on |
| FujiUnset.UnsetFieldsGetDefaults | protocol/fuji_ac_state.h:59-68 | from then on every field that the request leaves unset has its default on the unit: off, AUTO, fan AUTO, 20 degrees, economy and swing off |
| FujiUnset.FanRequestChangesMode | controller/fuji_ac_controller.cc:51-70 | a request for a high fan alone turns the unit as it powers on from COOL at 18 degrees to AUTO at 20, still off |
| FujiController.Controller.WriteControllerFrame | controller/fuji_ac_controller.cc:140-144 | comparing the frame's bytes with the last one decides `ready`; the unit takes the reply over |
| FujiController.Controller.HandleMasterFrame | controller/fuji_ac_controller.cc:137-144 | the locked part of the loop is the handling step of the transition system |
| FujiController.Controller.BeginUpdate | controller/fuji_ac_controller.cc:22-73 | an update up to its wait is the client step of the transition system |
| FujiController.Controller.AwaitReady | controller/fuji_ac_controller.cc:74 | the wait ends once other clients and the remote fall silent, however they disturb it before, by the rank; it may end earlier |
| FujiController.Controller.Update | controller/fuji_ac_controller.cc:22-76 | amid any disturbance an update returns, and only after a write that carries its changes; undisturbed with the unit holding the requested settings |
| FujiController.Controller.UpdateAndReport | controller/fuji_ac_server.cc:65-78 | the service's update call with both its waits: it returns the status after its changes were written; if nothing disturbed it, it reports what was set, and exactly what the unit holds or, after a repeated write, what was asked for |
| FujiController.Controller.GetStatus | controller/fuji_ac_controller.cc:78-129 | the status reported for every local state |
| FujiController.Controller.DoLoop | controller/fuji_ac_controller.cc:131-147 | the loop, interleaved with any schedule of clients and remote, runs the transition system |

## Left out

- The serial device (controller/fuji_ac_serial_reader.cc): a short read is the step without a frame; the byte inversion and terminal setup add nothing to the protocol.
- The RPC server and command-line client: only the service's update-then-status call is modelled.
- Threads, shutdown and logging: the mutex is modelled as atomic steps, and a waiting client goes on as soon as `ready` holds. What a disturbance that never ends does to a waiting client is `TogglingStarvesClients`.
- Loss of controller frames: the controller counts a written frame as delivered, and a failed write is fatal there; delivery is assumed in all composed results.
- Printing of frames and registers, and the error register's content, which the source does not decode.
- The temperature sensor, a constant in the source.
