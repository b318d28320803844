/** The diode-laser control panel: the driver handle, the Backend controller
    that switches the laser and sets its power, and the Frontend's emission
    LED and power spin box. Signals the Backend sends to the Frontend are
    recorded, in order, in Backend.emissionSignals. */
module LaserControl {
  import opened EmissionWait

  /** The MiniLasEvo driver, reduced to the three attributes the controller
      uses. Its serial protocol is not part of this model. */
  class DiodeLaser {
    var enabled: bool
    var power: int
    var portClosed: bool

    /** A driver handle on an open port, in whatever state the device is. */
    constructor (enabled0: bool, power0: int)
      ensures enabled == enabled0 && power == power0 && !portClosed
    {
      enabled, power, portClosed := enabled0, power0, false;
    }

    /** closeLaserPort: closes the serial port and touches nothing else. */
    method CloseLaserPort()
      modifies this
      ensures portClosed
      ensures enabled == old(enabled) && power == old(power)
    {
      portClosed := true;
    }
  }

  /** The controller that owns the driver handle. */
  class Backend {
    const diodeLaser: DiodeLaser
    var laserState: bool
    /** Values sent on diodelaserEmissionSignal, oldest first. */
    var emissionSignals: seq<bool>

    /** While the controller believes the laser is on, the device is enabled. */
    ghost predicate Valid()
      reads this, diodeLaser
    {
      laserState ==> diodeLaser.enabled
    }

    constructor (diodelaser: DiodeLaser)
      ensures diodeLaser == diodelaser
      ensures !laserState && emissionSignals == []
      ensures Valid()
    {
      diodeLaser := diodelaser;
      laserState := false;
      emissionSignals := [];
    }

    /** setpowerDiodelaser: the power is written only while the device is
        enabled; otherwise nothing changes. */
    method SetPowerDiodeLaser(value: int)
      requires Valid()
      modifies diodeLaser
      ensures Valid()
      ensures diodeLaser.power == (if old(diodeLaser.enabled) then value else old(diodeLaser.power))
      ensures diodeLaser.enabled == old(diodeLaser.enabled)
      ensures diodeLaser.portClosed == old(diodeLaser.portClosed)
      ensures !old(diodeLaser.enabled) ==> unchanged(diodeLaser)
    {
      if diodeLaser.enabled {
        diodeLaser.power := value;
      }
    }

    /** enableDiodelaser. With enable true, the device is switched on and the
        status replies `replies` are polled until emission or timeout; a True
        signal is sent only on success. With enable false, the power is set
        to 0 (while the device is still enabled), the device is switched off
        and a False signal is sent. */
    method EnableDiodeLaser(enable: bool, replies: seq<string>)
      requires enable ==> |replies| >= MaxPolls
      modifies this, diodeLaser
      ensures Valid()
      ensures laserState == enable && diodeLaser.enabled == enable
      ensures diodeLaser.portClosed == old(diodeLaser.portClosed)
      ensures enable ==> diodeLaser.power == old(diodeLaser.power)
      ensures enable ==> emissionSignals == old(emissionSignals) + (if Succeeds(replies) then [true] else [])
      ensures !enable ==> diodeLaser.power == (if old(diodeLaser.enabled) then 0 else old(diodeLaser.power))
      ensures !enable ==> emissionSignals == old(emissionSignals) + [false]
    {
      if enable {
        laserState := true;
        diodeLaser.enabled := true;
        var i, polls := WaitForEmission(replies);
        if i < GiveUpCount {
          emissionSignals := emissionSignals + [true];
        }
      } else {
        laserState := false;
        SetPowerDiodeLaser(0);
        diodeLaser.enabled := false;
        emissionSignals := emissionSignals + [false];
      }
    }

    /** stop: runs the disable path if the laser is on, then closes the port.
        Afterwards the port is closed and the laser is off; when it was on,
        its power is 0 and a False signal was sent. */
    method Stop()
      requires Valid()
      modifies this, diodeLaser
      ensures Valid()
      ensures diodeLaser.portClosed && !laserState
      ensures old(laserState) ==> !diodeLaser.enabled && diodeLaser.power == 0
      ensures old(laserState) ==> emissionSignals == old(emissionSignals) + [false]
      ensures !old(laserState) ==> emissionSignals == old(emissionSignals)
      ensures !old(laserState) ==> diodeLaser.enabled == old(diodeLaser.enabled) && diodeLaser.power == old(diodeLaser.power)
    {
      if laserState {
        EnableDiodeLaser(false, []);
      }
      diodeLaser.CloseLaserPort();
    }
  }

  /** Icon shown next to the "Emission" label. */
  datatype Led = RedLed | GreenLed

  /** Range of the power spin box, in mW; 78 is the device's ceiling. */
  const PowerMin: int := 0
  const PowerMax: int := 78

  function Distance(a: int, b: int): nat
  {
    if a <= b then b - a else a - b
  }

  /** The value the spin box keeps when asked to hold v: the in-range value
      closest to v. */
  function ClampToRange(v: int): (r: int)
    ensures PowerMin <= r <= PowerMax
    ensures PowerMin <= v <= PowerMax ==> r == v
    ensures forall w :: PowerMin <= w <= PowerMax ==> Distance(r, v) <= Distance(w, v)
  {
    if v < PowerMin then PowerMin
    else if v > PowerMax then PowerMax
    else v
  }

  /** The part of the control panel that reflects the laser's state. */
  class Frontend {
    var emissionLed: Led
    /** Value of the power spin box, in mW. */
    var powerSetpoint: int

    ghost predicate Valid()
      reads this
    {
      PowerMin <= powerSetpoint <= PowerMax
    }

    /** The panel as set up: red LED, spin box at its minimum. */
    constructor ()
      ensures Valid()
      ensures emissionLed == RedLed && powerSetpoint == PowerMin
    {
      emissionLed := RedLed;
      powerSetpoint := PowerMin;
    }

    /** update_led: green exactly when the laser emits; every change of the
        emission status resets the power setpoint to 0. */
    method UpdateLed(emission: bool)
      modifies this
      ensures Valid()
      ensures emissionLed == GreenLed <==> emission
      ensures powerSetpoint == 0
    {
      if emission {
        emissionLed := GreenLed;
      } else {
        emissionLed := RedLed;
      }
      powerSetpoint := 0;
    }

    /** A new value for the power spin box; values outside 0..78 never reach
        the setpoint. */
    method SetPowerSetpoint(v: int)
      modifies this
      ensures Valid()
      ensures powerSetpoint == ClampToRange(v)
      ensures emissionLed == old(emissionLed)
    {
      powerSetpoint := ClampToRange(v);
    }
  }
}
