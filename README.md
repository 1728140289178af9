# Step generation, persisted settings and request handling of Franklin

This project models three parts of the Franklin 3D-printer controller and proves
properties of them:

- the host-side step generator of the C driver (`server/cdriver/space.cpp`);
- the firmware's persisted settings (`firmware/settings.cpp`);
- two small pieces of the web server (`server/server.py`): request identifiers and
  access roles.

**The step generator.** It holds a list of *spaces*. Each space has axes (positions
in the space's coordinates) and motors (positions in steps). Every axis and motor
keeps one *history slot* per fragment of a ring buffer. Each *fragment* is a packet
of step counts for the hardware, 4 bits per motor per tick, and has its own global
settings. The files model it as follows:

- `records.dfy` has the records.
- `topology.dfy` resizes a space (`setup_nums`, `cancel_update`).
- `layout.dfy` has the saved layout of axes and motors, and the size of a space's
  saved data (`savesize_std`).
- `limiter.dfy` has the per-motor arithmetic: the limiter `check_distance`, the
  target blends, rounding to steps and nibble packing.
- `fleet.dfy` states, as functions on values, what each loop over all spaces leaves
  behind.
- `motion.dfy` is the driver itself: a class whose fields are the globals of
  `space.cpp`. It has the current fragment, the position in it, the free
  fragments, the flags `moving`, `refilling`, `stopping`, `aborting` and
  `motors_busy`, the callbacks held back, and the `settings` array of fragment
  records. Each loop of the source is a method with its invariants, proved
  against the function in `fleet.dfy` that describes it.

Floats are reals. A float that may be NaN is an `Option<real>`. A velocity or
acceleration limit is `Unlimited` or `Bounded`. A float that is only stored and
loaded keeps NaN and the infinities apart. The square root and the kinematics
(`xyz2motors` of the space type) are parameters of the driver. The square root
comes with its contract: for a non-negative argument it returns the non-negative
root. The kinematics answers with the motor targets, whether it succeeded, and the
axis targets of the current fragment as it leaves them, since it may move a target
it cannot reach before it is asked again.

**The firmware settings.** `firmware_settings.dfy` covers `Constants::save`,
`Variables::save` and `Variables::load`, with the range checks that restore the
defaults. `persist.dfy` is the medium behind `read_*`/`write_*`: a cursor that
advances by 1, 2 or 4 bytes per value. The medium maps the address where a value
starts to that value with its width, and a read finds only a value of its own width
there; anywhere else it reads erased memory, all ones.

**The web server.** `request_ids.dfy` covers `nextid`: a 32-bit counter with an
odd step, coded nibble by nibble through `id_map`. `auth.dfy` covers
`auth_message` and `authenticate`.

Where the source changes state in place, the model does too. Examples are the
driver class, `IdSource.NextId`, `Variables.Load` and `AuthMessage` on a
connection. Pure code is functions and lemmas.

## Model

| member | source | states |
|---|---|---|
| `Numeric.Trunc` | server/cdriver/space.cpp:480 | The float-to-integer conversion truncates toward zero: the result lies on the same side of 0 as `x` and is less than 1 away from it. |
| `Numeric.RoundSteps` | server/cdriver/space.cpp:444 | `int(x + (x > 0 ? .49 : -.49))` keeps the sign of `x` and lies within 0.51 steps of it. |
| `Numeric.Sign` | server/cdriver/space.cpp:372 | The direction of a velocity is -1 or 1 and never points against the velocity. |
| `Numeric.OptionRoundTrip` | server/cdriver/space.cpp:274-281 | A float that is NaN or finite, once stored, reads back as the same value. |
| `Numeric.LimitRoundTrip` | server/cdriver/space.cpp:292-293 | A limit stored as a float, with INFINITY when there is none, reads back as the same limit. |
| `FirmwareSettings.Shift` | firmware/settings.cpp:22 | Adding the Kelvin offset to a float and taking it off again are inverse; a float that is not finite (NaN or an infinity) is returned unchanged. |
| `FirmwareSettings.SaveConstants` | firmware/settings.cpp:9-14 | The medium afterwards holds MAXAXES, MAXEXTRUDERS and MAXTEMPS as bytes, in that order, from the cursor on; the cursor advances by 3. |
| `FirmwareSettings.ConstantsReadBack` | firmware/settings.cpp:11-13 | Limits below 256 read back from offsets 0, 1 and 2 in the order they were written. |
| `FirmwareSettings.Decode` | firmware/settings.cpp:18-24 | Whatever the medium holds, the values loaded fit the widths they are read with. |
| `FirmwareSettings.Checked` | firmware/settings.cpp:25-31 | Each count is kept when it is within its build limit and replaced by its default (3, 1, 1) exactly when it exceeds it; no other field changes. |
| `FirmwareSettings.DecodeLayout` | firmware/settings.cpp:16-44 | `load` reads every field back from the offset where `save` wrote it: decoding the saved layout of in-range values gives them back unchanged. |
| `FirmwareSettings.SaveThenLoad` | firmware/settings.cpp:16-44 | Saving variables whose counts are within the limits and loading them again, range checks included, restores all of them. |
| `FirmwareSettings.LoadedWithinLimits` | firmware/settings.cpp:25-31 | Whatever the medium holds, the loaded counts never exceed their limits when the defaults fit the build. |
| `FirmwareSettings.ErasedLoadsDefaults` | firmware/settings.cpp:25-31 | An erased medium loads the default counts 3, 1 and 1 and a NaN room temperature. |
| `FirmwareSettings.Variables.Load` | firmware/settings.cpp:16-33 | The variables become the range-checked values read in the order `save` writes them; the cursor advances by 16. |
| `FirmwareSettings.Variables.Save` | firmware/settings.cpp:35-44 | The three counts and the LED pin go out as bytes, then the room temperature in Celsius as a float, then the two limits as 32-bit values, in that order; the cursor advances by 16. |
| `Layout.SaveAxis` | server/cdriver/space.cpp:274-281 | The medium afterwards holds offset, park, park order, maximum speed, minimum and maximum, in that order; the cursor advances by 21. |
| `Layout.SavePins` | server/cdriver/space.cpp:284-289 | The six pin codes go out as 16-bit values, in the order step, dir, enable, limit min, limit max, sense. |
| `Layout.SaveMotor` | server/cdriver/space.cpp:283-296 | The medium afterwards holds the pins, then steps per metre, maximum steps, home position, both limits and home order; the cursor advances by 30. |
| `Layout.AxisRoundTrip` | server/cdriver/space.cpp:185-190 | `load_axis` reads back exactly what `save_axis` wrote, field by field. |
| `Layout.PinsRoundTrip` | server/cdriver/space.cpp:203-208 | Pin codes below 2^16 read back unchanged. |
| `Layout.TailRoundTrip` | server/cdriver/space.cpp:209-214 | The fields after the pins read back unchanged from 12 bytes on. |
| `Layout.MotorRoundTrip` | server/cdriver/space.cpp:198-214 | `load_motor` reads back exactly what `save_motor` wrote, field by field. |
| `Topology.NewAxis` | server/cdriver/space.cpp:29-44 | A new axis has NaN source, current and park position, offset 0, no speed limit, an unbounded range, and a NaN history slot per fragment. |
| `Topology.NewMotor` | server/cdriver/space.cpp:56-91 | A new motor has no limits, one step per tick, NaN steps per metre and home position, and per fragment direction 0, zeroed step data, position 0 and NaN velocities, distance and end position. |
| `Topology.CreateAxis` | server/cdriver/space.cpp:29-44 | The history filled slot by slot gives exactly the default axis. |
| `Topology.CreateMotor` | server/cdriver/space.cpp:56-91 | The history filled slot by slot gives exactly the default motor. |
| `Topology.Resize` | server/cdriver/space.cpp:24-51 | The list gets the new length; the common prefix keeps its entries and the entries past the old length are new ones. |
| `Topology.SetupNums` | server/cdriver/space.cpp:15-104 | With unchanged counts nothing changes. Otherwise the space has `na` axes and `nm` motors, keeps its common prefix, and has default entries past the old counts. The motors-changed call is made exactly when the motor count changed. The result is always success. |
| `Topology.CancelUpdate` | server/cdriver/space.cpp:348-359 | The space falls back to the default type and to `min(na, nm)` axes and motors, keeping the entries it had; its id and maximum deviation stay. |
| `Layout.AxisSpan` | server/cdriver/space.cpp:274-281 | `save_axis` writes 21 bytes. |
| `Layout.MotorSpan` | server/cdriver/space.cpp:283-296 | `save_motor` writes 30 bytes. |
| `Layout.AxesSpan` | server/cdriver/space.cpp:274-281 | Saving `n` axes one after another writes `21 * n` bytes. |
| `Layout.MotorsSpan` | server/cdriver/space.cpp:283-296 | Saving `n` motors one after another writes `30 * n` bytes. |
| `Layout.SaveSizeSavedCounts` | server/cdriver/space.cpp:272-300 | The corrected standard size, 4 + 21 per axis + 30 per motor, is exactly the number of bytes of the maximum deviation, the axes and the motors as they are saved. |
| `Layout.SaveSizeStdMiscounts` | server/cdriver/space.cpp:298-300 | `savesize_std` as written exceeds the bytes saved by `20 * motors - 9 * axes`, and falls short of them exactly when `9 * axes > 20 * motors`. |
| `Layout.ThreeAxesOneMotorShort` | server/cdriver/space.cpp:298-300 | For 3 axes and 1 motor `savesize_std` gives 90 where 97 bytes are saved. |
| `RequestIds.IdBytes` | server/server.py:672 | An identifier has 8 bytes, and byte `c` is the table code of nibble `c` of the counter. |
| `RequestIds.CodesDistinct` | server/server.py:675 | The 16 codes of `id_map` are pairwise distinct. |
| `RequestIds.IdBytesInjective` | server/server.py:672-675 | Different 32-bit counter values give different identifiers. |
| `RequestIds.Advance` | server/server.py:671 | One step of the counter stays below 2^32. |
| `RequestIds.AfterClosedForm` | server/server.py:671 | After `k` identifiers the counter has moved by `k * 0x23456789` modulo 2^32. |
| `RequestIds.StepNotPeriodic` | server/server.py:667-670 | Fewer than 2^32 odd steps never add up to a multiple of 2^32. |
| `RequestIds.NoRepeatWithinPeriod` | server/server.py:665-672 | Within 2^32 requests no counter value and no identifier repeats. |
| `RequestIds.FullPeriod` | server/server.py:667-671 | After exactly 2^32 requests the counter is back at its start. |
| `RequestIds.IdSource.constructor` | server/server.py:673 | The counter starts at the given 32-bit value. |
| `RequestIds.IdSource.NextId` | server/server.py:665-672 | The counter advances by one step modulo 2^32, and the identifier returned codes the new value. |
| `Auth.StripExtras` | server/server.py:139-141 | Stripping the extras leaves a prefix of the path. |
| `Auth.WebsocketAlias` | server/server.py:139-141 | Appending "/websocket" or "/websocket/" to a path is undone by the stripping: both strip to the path itself. |
| `Auth.WebsocketRole` | server/server.py:139-145 | A path that ends in neither "/" nor "/websocket" asks for the same role with "/websocket" or "/websocket/" appended. "/admin/" shows why the condition is needed: its alias asks for the user role. |
| `Auth.RoleBySuffix` | server/server.py:142-153 | Each role is chosen exactly when the path ends in its suffix (the user role when it ends in none), so the priority order never decides between two matches. |
| `Auth.Or` | server/server.py:144 | Python's `a or b` on strings is empty only when both are, and is one of them. |
| `Auth.OpenOnlyWithoutPasswords` | server/server.py:142-154 | A role is open exactly when every password it falls back to is empty. |
| `Auth.UserPasswordProtectsAll` | server/server.py:142-154 | With a user password set, no role is open. |
| `Auth.FirstColon` | server/server.py:157 | The split point is the first ':' of the password, when there is one. |
| `Auth.Authenticate` | server/server.py:155-159 | A `KeyError` is raised exactly when `pwd` or `password` is missing, or when `user` is missing and the configured password has a ':'. Without ':' in it, access is granted exactly when the password matches. |
| `Auth.AuthenticateNamed` | server/server.py:156-157 | With ':' in it and all keys present, access is granted exactly when the configured password is the given user name (without ':'), a ':' and the given password. |
| `Auth.AuthMessage` | server/server.py:137-154 | The connection records the role its stripped path asks for and the password protecting it. A prompt naming the role is returned exactly when that password is not empty. |
| `Limiter.TurnAround` | server/cdriver/space.cpp:374-377 | A previous velocity against the new direction becomes 0, so afterwards it never points against the move. |
| `Limiter.MaxDist` | server/cdriver/space.cpp:395 | The distance to the end position is known only when the end position and a non-zero steps-per-metre factor are. |
| `Limiter.CheckDistance` | server/cdriver/space.cpp:362-414 | The factor never grows, and only the target distance, target velocity and previous velocity of the slot change. |
| `Limiter.VelocityStage` | server/cdriver/space.cpp:379-383 | The velocity clamp never raises the speed and keeps it within the velocity limit. |
| `Limiter.AccelerationStage` | server/cdriver/space.cpp:386-391 | The acceleration clamp never raises the speed and keeps it within `limit_a * dt` of the previous velocity. |
| `Limiter.BrakeSpeed` | server/cdriver/space.cpp:402-407 | The braking speed `sqrt(max_dist * 2 * limit_a)` is never above the speed it replaces. |
| `Limiter.DecelerationStage` | server/cdriver/space.cpp:395-408 | The deceleration clamp keeps the speed non-negative and never raises it. |
| `Limiter.DecelerationStops` | server/cdriver/space.cpp:395-408 | After the deceleration clamp the motor can stop within the distance left: `v^2 <= 2 * limit_a * max_dist`. |
| `Limiter.Stages` | server/cdriver/space.cpp:378-408 | The three clamps in their order give a speed that meets all three limits at once and is no more than the one requested. |
| `Limiter.PermittedSpeedWithin` | server/cdriver/space.cpp:362-409 | With sane limits the permitted speed is between 0 and the requested speed, and within the velocity limit. |
| `Limiter.PermittedAcceleration` | server/cdriver/space.cpp:384-391 | The permitted speed exceeds the turned-around previous velocity by at most `limit_a * dt`. |
| `Limiter.PermittedBraking` | server/cdriver/space.cpp:393-408 | From the permitted speed the motor can stop before its end position. |
| `Limiter.DistanceFraction` | server/cdriver/space.cpp:406-410 | A speed between 0 and the requested one gives a distance that is a fraction in [0, 1] of the requested distance. |
| `Limiter.PermittedFraction` | server/cdriver/space.cpp:369-410 | The permitted distance divided by the requested one lies in [0, 1]. |
| `Limiter.CheckNoMove` | server/cdriver/space.cpp:363-367 | A NaN or zero distance sets the target distance to 0 and changes neither the factor nor anything else. |
| `Limiter.CheckFactor` | server/cdriver/space.cpp:369-413 | On a move the factor becomes `min(factor, permitted / requested)`, which stays in [0, factor] from a non-negative start. The slot records the requested distance, the velocity `distance / dt` and the turned-around previous velocity. |
| `Limiter.MainBlendMonotone` | server/cdriver/space.cpp:564-565 | With non-negative `f1`, `f2` the main-part blend never decreases over the phase. |
| `Limiter.MainBlendShape` | server/cdriver/space.cpp:563-576 | The blend runs from 0 to `f1 + f2`, grows through the phase and stays between those values. |
| `Limiter.ConnectorEnds` | server/cdriver/space.cpp:590-593 | The connector's blend factors are 0 at its start and `(fp, fq)` at its end. |
| `Limiter.PhaseBoundary` | server/cdriver/space.cpp:563-593 | Where the main part hands over to the connector, the axis target is continuous exactly when `main_dist` is the distance the main part covered. |
| `Limiter.CommitIdempotent` | server/cdriver/space.cpp:507-513 | Committing a segment twice is committing it once. |
| `Limiter.CommitMoves` | server/cdriver/space.cpp:507-513 | After the commit the distance is NaN, the target is the new source, and the source has moved by the distance. |
| `Limiter.StepAgreesWithTest` | server/cdriver/space.cpp:442-482 | With positive steps per metre, the motor moves to exactly the position the test of `do_steps` rounded to. So a motor has steps exactly when it moves. |
| `Limiter.RoundWhole` | server/cdriver/space.cpp:444 | Rounding a whole number of steps gives it back. |
| `Limiter.ZeroDistanceNoSteps` | server/cdriver/space.cpp:442-446 | A motor with zero target distance and a known, non-zero steps-per-metre factor has no steps. |
| `Limiter.AdvanceAxisEnds` | server/cdriver/space.cpp:488 | With factor 1 the axis reaches its target; with factor 0 it stays. |
| `Limiter.TickValue` | server/cdriver/space.cpp:695-697 | The step count of a tick is capped at 15. |
| `Limiter.OrIntoEmptyNibble` | server/cdriver/space.cpp:698 | OR-ing a count of 0 to 15 into an empty nibble stores exactly it there and leaves the other nibble alone. |
| `Limiter.TickWithinGap` | server/cdriver/space.cpp:695-699 | When the direction points from the sent position to the computed one, the count is 0 to 15 and never more than the gap between them. |
| `Limiter.PackReadsBack` | server/cdriver/space.cpp:695-699 | Under that direction the packed count reads back from nibble `pos & 1` of byte `pos >> 1`, and every other byte stays as it was. |
| `Limiter.PackTracks` | server/cdriver/space.cpp:695-699 | Under that direction the sent position moves up to 15 steps towards the computed one without passing it, so the direction still agrees. |
| `Fleet.DirSlot` | server/cdriver/space.cpp:607-616 | While moving, a motor gets a non-zero direction exactly when its computed and sent positions differ, and the direction points from the sent to the computed one. Nothing else in the slot changes. |
| `Fleet.ResetCountsMotors` | server/cdriver/space.cpp:604-617 | For one space, the active motors counted are exactly the motors left with a direction. |
| `Fleet.ResetCounts` | server/cdriver/space.cpp:601-619 | `num_active_motors` after `reset_dirs` is exactly the number of motors that have a direction. |
| `Fleet.CopyCopies` | server/cdriver/space.cpp:621-656 | Every motor slot and axis slot `dst` becomes slot `src` (the motor's step data aside), and every other slot, `src` among them, is unchanged. |
| `Fleet.CopyBack` | server/cdriver/space.cpp:621-656 | Copying back right after copying changes nothing. |
| `Fleet.ClearEmpties` | server/cdriver/space.cpp:682-686 | After the `memset` every nibble of the new fragment is empty. |
| `Fleet.NoStepsNoMoves` | server/cdriver/space.cpp:438-484 | When no motor has steps, the motor loop of `do_steps` moves no motor with positive steps per metre. |
| `Fleet.CheckMotorsFactor` | server/cdriver/space.cpp:416-428 | `move_axes` never raises the factor, and keeps a non-negative one non-negative. |
| `Fleet.MoveAllFactor` | server/cdriver/space.cpp:567-578 | Passed through all spaces, the factor never rises above where it started and stays non-negative. |
| `Motion.ResetMotorDir` | server/cdriver/space.cpp:607-616 | A motor's slot is reset as `DirSlot` says, and the motor is counted exactly when the move is on and its positions differ. |
| `Motion.LoadedAxis` | server/cdriver/space.cpp:180-194 | The axis fields are those read at the offsets `save_axis` writes. When the offset changes, the current and source positions keep their distance to the offset. A NaN offset on either side makes them NaN. With an unchanged offset they stay. |
| `Motion.ResetSpaceDirs` | server/cdriver/space.cpp:604-617 | The motor loop leaves the space as `ResetSpace` describes and counts the active motors. |
| `Motion.ResetSpacesDirs` | server/cdriver/space.cpp:601-619 | The space loop leaves every space reset and counts the active motors of all of them. |
| `Motion.CopySpaceSlots` | server/cdriver/space.cpp:637-655 | The loops over one space's motors and axes copy slot `src` to `dst` as `CopySpace` describes. |
| `Motion.ClearSpaceData` | server/cdriver/space.cpp:682-686 | Every motor's step data of the fragment is zeroed. |
| `Motion.PackSpaceMotors` | server/cdriver/space.cpp:693-700 | Every motor of the space packs its tick as `PackSlot` describes. |
| `Motion.PackTick` | server/cdriver/space.cpp:695-699 | One motor's tick is packed as `PackSlot` describes. |
| `Motion.FindSteps` | server/cdriver/space.cpp:438-450 | The search answers exactly whether some motor of some space has steps to take. |
| `Motion.StepSpaceMotors` | server/cdriver/space.cpp:469-484 | Every motor with a target distance moves to its rounded target and takes `target_v * factor` as its velocity. |
| `Motion.AdvanceSpaceAxes` | server/cdriver/space.cpp:485-490 | Every axis moves the fraction `factor` towards its target. |
| `Motion.CommitSpaceAxes` | server/cdriver/space.cpp:503-515 | Every axis commits its segment as `Commit` describes. |
| `Motion.MainSpaceAxes` | server/cdriver/space.cpp:567-576 | Every axis target is NaN for an axis without a distance, and otherwise `source + dist * current_f`. |
| `Motion.ConnectorSpaceAxes` | server/cdriver/space.cpp:583-594 | Every axis target is NaN when neither segment moves the axis, and otherwise the connector's blend. |
| `Motion.CheckSpaceMotors` | server/cdriver/space.cpp:424-427 | Checking the motors in turn gives the motors and the factor `CheckMotors` describes. |
| `Motion.StopSpaceMotors` | server/cdriver/space.cpp:543-547 | Every motor's previous velocity becomes 0. |
| `Motion.HoldSpaceSlots` | server/cdriver/space.cpp:124-129 | The first `min(axes, motors)` axes get zero distances, and their motors get previous velocity 0. |
| `Motion.Elapsed` | server/cdriver/space.cpp:426 | The time since the last step is positive once the clock has moved past it. |
| `Motion.Held` | server/cdriver/space.cpp:109-122 | The fragment gets a segment of zero duration and no callbacks: the main factor is 1, the other factors are 0, and the hardware time, start time, last time and last current time are all 0. Fields the source does not touch stay as they were. |
| `Motion.Lag` | server/cdriver/space.cpp:460-462 | The start-time correction is never negative for a factor in (0, 1), and is 0 at full speed. |
| `Motion.Driver.ResetDirs` | server/cdriver/space.cpp:601-619 | The spaces are reset for the fragment, and the fragment records the active-motor count. Every other fragment's settings stay as they were. |
| `Motion.Driver.CopyFragmentSettings` | server/cdriver/space.cpp:621-656 | Fragment `dst`'s settings and every history slot `dst` become those of `src`; everything else stays. |
| `Motion.Driver.SetCurrentFragment` | server/cdriver/space.cpp:658-668 | The fragment becomes current with position 0. When nothing is sent first, it is a copy of the old current fragment with length and callbacks 0, its directions reset and its active motors counted, and the free count and events stay. |
| `Motion.Driver.MakeCurrent` | server/cdriver/space.cpp:661-667 | After the copy, the fragment's length and callbacks are 0, it becomes current at position 0, and its directions and active count are reset. |
| `Motion.Driver.SendFragment` | server/cdriver/space.cpp:670-687 | An empty fragment changes nothing. Otherwise the length is recorded, one free fragment is used and the fragment is sent. Unless stopping, the next fragment modulo the buffer size becomes current, empty, with zeroed data, reset directions and a fresh active count. |
| `Motion.Driver.PrepareNext` | server/cdriver/space.cpp:680-686 | The next fragment modulo the buffer size becomes current at position 0, a copy of the one sent, with zeroed step data. |
| `Motion.Driver.RecordFragment` | server/cdriver/space.cpp:674-676 | The fragment's length is recorded, one free fragment is used, and a send event is appended. |
| `Motion.Driver.ClearFragment` | server/cdriver/space.cpp:682-686 | The current fragment's step data is zeroed in every motor. |
| `Motion.Driver.Tick` | server/cdriver/space.cpp:690-704 | Each motor packs its tick (only the first space at position 0). The position grows by exactly 1 and the clock by `hwtime_step`. |
| `Fleet.WithTargets` | server/cdriver/space.cpp:418-422 | The axis targets of the fragment become those the kinematics left; nothing else in the space changes. |
| `Fleet.AskKinematics` | server/cdriver/space.cpp:418-422 | The kinematics is asked once, and once more on the space it left when its first answer is not ok. Only axis targets of the fragment change. |
| `Motion.Driver.MoveAxes` | server/cdriver/space.cpp:416-428 | Space `s` gets its motors checked against the targets of its kinematics, asked again on the moved targets after a failure, and the factor is passed on. Of its axes only targets of the current fragment change. No other space changes. |
| `Motion.Driver.MoveNext` | server/cdriver/space.cpp:503-517 | One more space moved extends the spaces moved so far, with the factor passed through them in order. |
| `Motion.Driver.CommitAndMove` | server/cdriver/space.cpp:503-517 | Every space commits its segment and moves its axes, in order, from factor 1. |
| `Motion.Driver.MainAndMove` | server/cdriver/space.cpp:563-578 | Every space sets its main-part targets and moves its axes, in order, from factor 1. |
| `Motion.Driver.ConnectorAndMove` | server/cdriver/space.cpp:579-597 | Every space sets its connector targets and moves its axes, in order, from factor 1. |
| `Motion.Driver.DoSteps` | server/cdriver/space.cpp:430-491 | A factor of 0 or less stops the move. Without steps only the call time is recorded. With steps, motors and axes move by the factor, and the start time is corrected for a factor below 1. |
| `Motion.Driver.StepTimes` | server/cdriver/space.cpp:452-466 | The call time is always recorded. With steps, the last step time becomes the current time and a factor below 1 moves the start time on by `Lag`. |
| `Motion.Driver.StepMotors` | server/cdriver/space.cpp:469-484 | Every motor of every space steps as `StepAll` describes. |
| `Motion.Driver.AdvanceAxes` | server/cdriver/space.cpp:485-490 | Every axis of every space advances as `AdvanceAll` describes. |
| `Motion.Driver.StopMotors` | server/cdriver/space.cpp:543-547 | Every motor's previous velocity in the current fragment becomes 0. |
| `Motion.Driver.NextMove` | server/cdriver/space.cpp:529 | A queued move's callback count is taken off the queue and the move flag is set; with none queued nothing starts. |
| `Motion.ScannedSlot` | server/cdriver/space.cpp:719-726 | Only the direction can change, and it changes exactly for a motor away from its position without a direction. Afterwards such a motor has a direction, and that direction agrees with where it has to go. |
| `Motion.ScannedSpaces` | server/cdriver/space.cpp:717-726 | Only motor `m` of space `s` changes, and of it only the slot of the current fragment, which becomes its `ScannedSlot`; the shapes stay. |
| `Motion.Driver.ScanMotor` | server/cdriver/space.cpp:719-738 | The fragment is sent exactly when it holds samples and the motor reverses. Otherwise the spaces become `ScannedSpaces`, and the fragment's active-motor count goes up by one exactly when the motor was away from its position without a direction. The motor then has a direction if it is away from its position, and with samples that direction agrees. |
| `Motion.Driver.ScanDirections` | server/cdriver/space.cpp:716-741 | At most one fragment is sent, with a start event when few fragments are free. Exhaustion is reported exactly when the send leaves none free. Without a send, every motor away from its position has a direction, and with samples in the fragment every direction agrees with where its motor has to go. |
| `Motion.Driver.EndMove` | server/cdriver/space.cpp:524-560 | Callbacks are counted modulo 256. A queued segment takes them into the current fragment unless aborting. Otherwise a factor below 1 keeps the move on, and a factor of 1 ends it with velocities 0 and the callbacks delivered. |
| `Motion.Driver.AddCallbacks` | server/cdriver/space.cpp:533-534 | The callbacks are added to the current fragment unless aborting or there are none. |
| `Motion.Driver.CompleteMove` | server/cdriver/space.cpp:539-554 | The move ends with no callbacks held back. Inside a refill, every motor's previous velocity is 0 and the held callbacks reach the current fragment unless aborting. |
| `Motion.Driver.Finish` | server/cdriver/space.cpp:500-561 | Inside a refill the fragment, position, free count and events are left alone. |
| `Motion.Driver.StepAndEnd` | server/cdriver/space.cpp:520-561 | Inside a refill the steps and the end of the segment leave the fragment, position, free count and events alone. |
| `Motion.Driver.HandleMotors` | server/cdriver/space.cpp:493-599 | Without a move nothing changes. Inside a refill the fragment bookkeeping is left alone. |
| `Motion.Driver.ApplyTick` | server/cdriver/space.cpp:689-706 | Inside a refill the position grows by exactly 1, and the fragment, free count and events stay. |
| `Motion.Driver.MoveToCurrent` | server/cdriver/space.cpp:106-131 | During a move or with idle motors nothing changes. Otherwise the fragment holds a zero-length segment, space `s` holds still and the move is on. After the refill every fragment in use has been started. |
| `Motion.Driver.HoldCurrent` | server/cdriver/space.cpp:107-129 | The fragment's settings become `Held`, space `s` holds still, and the position and held callbacks are 0 with the move on. |
| `Motion.Driver.LoadAxis` | server/cdriver/space.cpp:180-195 | The axis becomes `LoadedAxis` and the cursor advances by 21. With an unchanged offset, during a move, or with idle motors nothing else changes. Otherwise `move_to_current` holds the space still and starts the move. |
| `Motion.Driver.RefillRound` | server/cdriver/space.cpp:714-752 | A round keeps the position below a full fragment and the free count at 0 or more, with at least one free fragment when the move has ended with samples left. It uses up a free fragment or adds a sample to the current one, so the rounds end. |
| `Motion.Driver.BufferRefill` | server/cdriver/space.cpp:708-765 | A refill already running, or stopping, changes nothing. Otherwise the free fragments never go below 0, and a fragment left after the move ended is sent. The hardware is told to start last whenever a fragment is in use. |

## Left out

- Hardware calls (`arch_send_fragment`, `arch_start_move`) are modelled as events appended to a log; `arch_addpos`, `arch_motors_change` (beyond the flag `SetupNums` returns) and the pin macros are not modelled.
- `serial(0)` in `buffer_refill` is host-protocol polling. It could set `stopping` or queue work; the model has no such input, so `stopping` never changes during a refill. For that reason the `if (stopping)` checks after the scan and after the loop are left out.
- `next_move` lives in another file. It is modelled as a queue of callback counts only: taking one off sets `moving`, but none of the new segment's `t0`, `tp`, `f1`, `f2`, `start_time` or axis distances is installed. A move restarted this way keeps the finished segment's timing, so the next `handle_motors` may end it at once.
- `Motion.Driver.NextMove`: states only the queue and the move flag, not the segment that `next_move` would set up.
- The kinematics plug-in is taken to change nothing of the space but the axis targets of the current fragment, as the comment on its retry says; what else a plug-in might change is not modelled.
- `xyz2motors` and `sqrt` are parameters, and so are the constants `FRAGMENTS_PER_BUFFER`, `BYTES_PER_FRAGMENT`, `MIN_BUFFER_FILL`, `hwtime_step` and `done_factor`. The header that fixes them is not part of this model.
- IEEE floats are reals. NaN is `None`. An infinite limit and a NaN limit are both `Unlimited`, as neither clamps anything. A division by zero gives NaN instead of an infinity. Rounding errors, including the float `.49` rounding drift, are not modelled.
- 32-bit wrap-around of the microsecond clock is not modelled, including the unsigned subtraction `current_time - the_last_time` in `do_steps`. The 64-bit `hwtime` is an unbounded integer.
- A float that is out of range for the integer conversion (NaN) gives the x86 value `-2^31`. The C++ standard leaves it undefined.
- `Space::load_info`, `save_info`, `savesize`, `savesize0`, `init` and `free` use the space-type plug-ins or only deallocate. `Space::copy` aliases pointers between spaces. Spaces are values here, so aliasing and pointer identity are not modelled.
- `load_motor` is modelled only as its reads (`DecodeMotor`). Its pin setup, steps-per-metre and home-position corrections and their `move_to_current` call are left out, because they go through `arch_addpos`, `arch_motors_change` and the pin macros.
- The persisted medium is a map from start address to a typed value, not an array of bytes. A write that overlaps an earlier value of another width leaves that value in place, and a read of another width than was written reads erased memory instead of the bytes stored there. So `FirmwareSettings.Decode`, `FirmwareSettings.LoadedWithinLimits` and the round trips of `Layout` range over media written one whole value at a time.
- The pin objects are their 16-bit codes; `Pin_t::init` is taken to give code 0.
- `setup_nums` never fails in the source, so the `(0, 0)` fallback of `cancel_update` cannot run. Allocation failure is not modelled.
- The type of `cbs_after_current_move` is declared in a header that is not part of this model. It is an integer that is never negative; the 8-bit `had_cbs` is modelled modulo 256.
- A motor's direction is a subset type of -1, 0 and 1, the only values the source stores in it.
- In `buffer_refill` the scan's early return when no fragment is left free cannot happen: a round starts with at least two free fragments and a scan sends at most one. The model proves this with an assertion instead of modelling the return.
- Request identifiers start from a random value, which is the constructor's parameter. The websocket, HTTP and printer plumbing of `server.py` is I/O and is not modelled.
- `Motion.Driver.SetCurrentFragment`: when a pending fragment is sent first (not moving, position > 0), the contract states only the new current fragment, position 0 and the shape of the spaces, not the full new state.
- `Motion.Driver.ScanMotor`: when the fragment is sent, the contract states the send bookkeeping (free count, position, event) but not the new spaces and settings.
- `Motion.Driver.ScanDirections`: the new spaces are described only by their shape and by the directions of the fragment's slots, not value by value. The new active-motor counts are not stated.
- `Motion.Driver.EndMove`: when the move ends outside a refill, the contract does not state the spaces and settings the nested `buffer_refill` leaves.
- `Motion.Driver.CompleteMove`: outside a refill the state the nested `buffer_refill` leaves is not stated.
- `Motion.Driver.Finish`: only the refill frame is stated. What the commit, the steps and the end of the segment do is stated by `CommitAndMove`, `DoSteps` and `EndMove`, which it calls.
- `Motion.Driver.StepAndEnd`: only the refill frame is stated, as for `Finish`.
- `Motion.Driver.RefillRound`: the spaces and fragments a round produces are not stated, as for `BufferRefill`.
- `Motion.Driver.HandleMotors`: only the no-move case and the refill frame are stated. The phases are stated by `Finish`, `MainAndMove`, `ConnectorAndMove` and `DoSteps`.
- `Motion.Driver.ApplyTick`: only the refill frame is stated; the tick itself is stated by `Tick`.
- `Motion.Driver.BufferRefill`: the contract states the guard, the free-fragment bound and the final start event. The spaces and fragments the rounds produce are not stated.
- `Motion.Driver.MoveToCurrent`: outside a refill, only what `BufferRefill` promises is stated about the state after the refill.

## Findings

| source | as written | input that shows it | evidently intended | confidence | as-written member | corrected member |
|---|---|---|---|---|---|---|
| server/cdriver/space.cpp:298-300 | `savesize_std` counts 12 bytes per axis and 50 per motor (plus 4), while `save_axis` writes 21 bytes per axis and `save_motor` 30 per motor (space.cpp:274-296) | a space with 3 axes and 1 motor: 90 bytes counted, 97 saved (maximum deviation, axes and motors) | the size of what is saved: 4 + 21 per axis + 30 per motor | low, not executed (the callers of `savesize` are not part of this model, so an over-count may be deliberate slack; the under-count when `9 * axes > 20 * motors` is not) | `Layout.SaveSizeStdMiscounts`, `Layout.ThreeAxesOneMotorShort` | `Layout.SaveSizeSavedCounts` |
