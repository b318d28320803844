# Diode-laser control panel — Dafny model

This project models the control logic of a desktop panel that drives a
MiniLasEvo diode laser. The `Backend` controller owns a driver handle. It can:

- switch the laser on and wait, with a bounded poll loop, for the device to
  report that radiation can be emitted;
- switch the laser off;
- write a power setpoint;
- close the serial port on shutdown.

It reports the emission status to the `Frontend` with a boolean signal.
The `Frontend` shows the status as a green or red LED and resets the power
spin box (range 0..78 mW) whenever the status changes.

Files:

- `emission_wait.dfy` (module `EmissionWait`): the poll loop as a method
  (`WaitForEmission`), and the functions that specify it by the first
  sentinel reply (`FirstEmitting`, `ExitCounter`, `PollCount`, `Succeeds`).
  Lemmas state when enabling succeeds, that late or missing sentinels fail,
  and that the reply to the last poll never affects the outcome.
- `laser_control.dfy` (module `LaserControl`): the driver as a class with
  fields `enabled`, `power` and `portClosed`. The `Backend` class has
  `laserState` and the list of emission signals it has sent. The `Frontend`
  class has the LED and the power setpoint.

The driver's status replies are an input sequence. `replies[0]` is the text
of the poll made before the loop. `replies[k]` is the text of the k-th poll
inside the loop. Only the second string of each status pair is modelled,
since the first is never inspected.

The loop checks the counter `i` before incrementing it. So a sentinel first
seen at in-loop poll 12 or 13 still leaves `i == 12` and is reported as a
failure. The wait succeeds exactly when the sentinel is one of `replies[0]` …
`replies[11]` (in Dafny terms, it occurs in `replies[..12]`).
A wait makes at most 14 polls: the initial one plus 13 in the loop.

## Model

| member | source | states |
|---|---|---|
| EmissionWait.FirstEmitting | laser_control.py:199 | the index it returns is the first sentinel reply among the first n, or n when none is; every earlier reply differs from the sentinel |
| EmissionWait.ExitCounter | laser_control.py:198-204 | the counter at loop exit is at most 12; below 12 it indexes a sentinel reply with no earlier sentinel |
| EmissionWait.PollCount | laser_control.py:197-204 | a wait makes between 1 and 14 status polls; every reply before the last one read differs from the sentinel, and fewer than 14 polls happen only when the last reply read is the sentinel |
| EmissionWait.WaitForEmission | laser_control.py:196-204 | the loop ends with the counter and poll count given by ExitCounter and PollCount, at most 14 polls, and the counter is below 12 iff one of the first 12 replies is the sentinel |
| EmissionWait.SucceedsIff | laser_control.py:198-207 | a True signal is due exactly when the sentinel is the initial reply or the reply to one of the first 11 in-loop polls |
| EmissionWait.LateEmittingFails | laser_control.py:199-210 | a sentinel first seen at in-loop poll 12 or 13 ends with the counter at 12 and is reported as failure |
| EmissionWait.NeverEmittingFails | laser_control.py:199-210 | a device that never reports the sentinel is polled 14 times and the failure branch runs |
| EmissionWait.SuccessEndsOnEmitting | laser_control.py:199-207 | on success the status text read last is the sentinel, after at most 12 polls |
| EmissionWait.OutcomeIgnoresLateReplies | laser_control.py:197-204 | two devices whose first 13 replies agree give the same exit counter and poll count: the reply to the 14th poll, read when the counter is 12, never affects the outcome |
| EmissionWait.FirstEmittingPrefix | laser_control.py:199 | the first-sentinel index depends only on the replies it looks at |
| LaserControl.DiodeLaser.CloseLaserPort | laser_control.py:238 | the port is closed; enabled and power are untouched |
| LaserControl.Backend.constructor | laser_control.py:165-170 | the controller holds the given driver, laser state off, no signal sent, the driver is left as it was |
| LaserControl.Backend.SetPowerDiodeLaser | laser_control.py:222-224 | the power becomes the value when the device is enabled; when disabled the driver is unchanged |
| LaserControl.Backend.EnableDiodeLaser | laser_control.py:186-216 | enabling: laser state and device on, power kept, True sent exactly when the wait succeeds; disabling: both off, power 0 if the device was on, a False signal sent; the port state is kept |
| LaserControl.Backend.Stop | laser_control.py:235-238 | afterwards the port is closed and the laser state is off; when it was on, the device is off with power 0 and a False signal was sent, otherwise nothing else changed |
| LaserControl.ClampToRange | laser_control.py:103 | the result lies in 0..78, equals an in-range input, and is the in-range value closest to the input |
| LaserControl.Frontend.constructor | laser_control.py:96-103 | the panel starts with the red LED and the spin box at 0 |
| LaserControl.Frontend.UpdateLed | laser_control.py:72-84 | the LED is green iff the laser emits, and the power setpoint is reset to 0 |
| LaserControl.Frontend.SetPowerSetpoint | laser_control.py:102-103 | the setpoint always stays in 0..78 and the LED is untouched |

## Left out

- Time: the 4 s warm-up and the 0.5 s pauses between polls. Waiting is modelled as a number of polls.
- Logging through `print` and `datetime`.
- The identity query `idn()`, whose answer is only logged.
- The driver's serial protocol and its real `status()`: status replies are an input sequence. The model treats `closeLaserPort` as closing the port and nothing else.
- LaserControl.Backend.Stop: its promise that a laser that was on ends at power 0 rests on the invariant `Backend.Valid()` (laser state on implies device enabled). The invariant holds only if the driver's `enabled` attribute changes through the `Backend` alone. The driver is modelled as plain fields, so changes made by the device or by other code are not modelled.
- LaserControl.Backend.EnableDiodeLaser: when enabling, it requires at least 14 status replies. This stands for "the device answers every poll", which the Python code takes for granted.
- GUI construction and styling: `setup_gui`, icons, layouts, the dark theme.
- Qt signal/slot wiring, `make_connection`, `closeEvent`, the worker thread and the view timer (`update_view`).
  - Signals are recorded in `Backend.emissionSignals` rather than delivered.
  - Not modelled: the spin box's reset in `update_led` firing `valueChanged` and so calling `setpowerDiodelaser(0)`.
- The parameter stubs `emit_param`, `get_backend_param`, `get_frontend_param` and `calculate_derived_param`, which do nothing.
- The `__main__` bootstrap, including the unused second laser handle.
- LaserControl.Frontend.SetPowerSetpoint: models the spin box's own range enforcement (out-of-range values are clamped). The range is the only part of this that the Python code sets.
