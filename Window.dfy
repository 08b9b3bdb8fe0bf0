/**
 * The state the main window keeps across frames: the seven quantities of the
 * last frame, the running altitude, the seven read-out boxes, the port and
 * reader flags, and the enable state of the ten serial-related controls. The
 * reader thread and the dispatcher hand-off are modelled sequentially: each
 * accepted frame is assigned and displayed before the next line is read.
 */
module Rocketware {
  import opened Wrappers
  import opened Frame

  /**
   * Degrees to radians, as the window converts heading, pitch and roll before
   * the rotation: a full turn of 360 degrees is twice `Math.PI`, whose double
   * value 3.141592653589793 is read here as an exact real.
   */
  function ConvertToRad(angle: real): (radians: real)
    ensures radians * 180.0 == 3.141592653589793 * angle
  {
    ((2.0 * 3.141592653589793) / 360.0) * angle
  }

  /** The unit suffix a read-out box appends to its number. */
  datatype Unit = Degrees | Metres | Celsius | NoUnit | HectoPascal

  /** The text of each suffix. */
  function Suffix(u: Unit): string
  {
    match u
    case Degrees => "\U{00B0}"
    case Metres => "m"
    case Celsius => "\U{00B0}C"
    case NoUnit => ""
    case HectoPascal => "hPa"
  }

  /** The text of a read-out box: the "-" that Clear writes, or a number with its unit suffix. */
  datatype Readout = Dash | Shown(value: real, unit: Unit)

  /** The seven read-out boxes, in the order the frame carries their quantities. */
  datatype Boxes = Boxes(heading: Readout, pitch: Readout, roll: Readout, altitude: Readout,
                         temperature: Readout, humidity: Readout, pressure: Readout)

  const Cleared := Boxes(Dash, Dash, Dash, Dash, Dash, Dash, Dash)

  /** The boxes showing a frame in degrees and raw units, the altitude box showing `altitude`. */
  function Showing(rd: Reading, altitude: real): Boxes
  {
    Boxes(Shown(rd.heading, Degrees), Shown(rd.pitch, Degrees), Shown(rd.roll, Degrees), Shown(altitude, Metres),
          Shown(rd.temperature, Celsius), Shown(rd.humidity, NoUnit), Shown(rd.pressure, HectoPascal))
  }

  /** What the altitude box shows: the frame's delta in delta mode, the running altitude otherwise. */
  function AltitudeShown(useDeltaAltitude: bool, deltaAltitude: real, currentAltitude: real): real
  {
    if useDeltaAltitude then deltaAltitude else currentAltitude
  }

  /** The enable flags of the ten controls that ToggleCommands flips. */
  datatype Controls = Controls(closeSerialMenu: bool, openSerialMenu: bool,
                               openSerialButton: bool, closeSerialButton: bool,
                               abortButton: bool, launchButton: bool,
                               aux1Button: bool, aux2Button: bool, aux3Button: bool,
                               deployParachuteButton: bool)

  /** Every flag negated. */
  function Flipped(c: Controls): Controls
  {
    Controls(!c.closeSerialMenu, !c.openSerialMenu, !c.openSerialButton, !c.closeSerialButton,
             !c.abortButton, !c.launchButton, !c.aux1Button, !c.aux2Button, !c.aux3Button,
             !c.deployParachuteButton)
  }

  /**
   * The controls match the port: the open controls are enabled exactly when the
   * port is closed, the close controls and the six device commands exactly when it is open.
   */
  predicate MatchesPort(c: Controls, open: bool)
  {
    c.openSerialMenu == !open && c.openSerialButton == !open &&
    c.closeSerialMenu == open && c.closeSerialButton == open &&
    c.abortButton == open && c.launchButton == open && c.deployParachuteButton == open &&
    c.aux1Button == open && c.aux2Button == open && c.aux3Button == open
  }

  /** Flipping twice restores every flag. */
  lemma FlippedTwice(c: Controls)
    ensures Flipped(Flipped(c)) == c
  {
  }

  /** Flipping turns controls that match one port state into controls that match the other, and only those. */
  lemma FlippedMatches(c: Controls, open: bool)
    ensures MatchesPort(Flipped(c), !open) <==> MatchesPort(c, open)
  {
  }

  // ---------------------------------------------------------------------------
  // Altitude accumulation
  // ---------------------------------------------------------------------------

  /** The sum of the deltas, added in order from an altitude of 0. */
  function Total(deltas: seq<real>): real
  {
    if deltas == [] then 0.0 else Total(deltas[..|deltas| - 1]) + deltas[|deltas| - 1]
  }

  /** Summing two runs of frames one after the other adds their totals. */
  lemma {:induction false} TotalAppend(a: seq<real>, b: seq<real>)
    ensures Total(a + b) == Total(a) + Total(b)
    decreases |b|
  {
    if b == [] {
      assert a + b == a;
    } else {
      assert (a + b)[..|a + b| - 1] == a + b[..|b| - 1];
      TotalAppend(a, b[..|b| - 1]);
    }
  }

  /** One more delta adds itself to the total. */
  lemma TotalSnoc(deltas: seq<real>, d: real)
    ensures Total(deltas + [d]) == Total(deltas) + d
  {
    assert (deltas + [d])[..|deltas|] == deltas;
  }

  /** Deltas of +1, -0.5 and +2 from a zero baseline accumulate to 2.5. */
  lemma AccumulateExample()
    ensures Total([1.0, -0.5, 2.0]) == 2.5
  {
    assert [1.0, -0.5, 2.0][..2] == [1.0, -0.5];
    assert [1.0, -0.5][..1] == [1.0];
    assert [1.0][..0] == [];
  }

  /** The altitude deltas the frames carry, in order. */
  function DeltasOf(frames: seq<Reading>): seq<real>
  {
    if frames == [] then [] else [frames[0].deltaAltitude] + DeltasOf(frames[1..])
  }

  lemma {:induction false} DeltasOfAppend(a: seq<Reading>, b: seq<Reading>)
    ensures DeltasOf(a + b) == DeltasOf(a) + DeltasOf(b)
    decreases |a|
  {
    if a == [] {
      assert a + b == b;
    } else {
      assert (a + b)[1..] == a[1..] + b;
      DeltasOfAppend(a[1..], b);
    }
  }

  /** One more frame appends its own delta. */
  lemma DeltasStep(frames: seq<Reading>, rd: Reading)
    ensures DeltasOf(frames + [rd]) == DeltasOf(frames) + [rd.deltaAltitude]
  {
    DeltasOfAppend(frames, [rd]);
    assert DeltasOf([rd]) == [rd.deltaAltitude] by {
      assert [rd][1..] == [];
    }
  }

  /** One more accepted frame raises the accumulated altitude by its delta. */
  lemma AltitudeStep(frames: seq<Reading>, rd: Reading)
    ensures Total(DeltasOf(frames + [rd])) == Total(DeltasOf(frames)) + rd.deltaAltitude
  {
    DeltasStep(frames, rd);
    TotalSnoc(DeltasOf(frames), rd.deltaAltitude);
  }

  // ---------------------------------------------------------------------------
  // A stream of lines
  // ---------------------------------------------------------------------------

  /** The frames a stream of lines yields: one per line that decodes, in receipt order. */
  function Accepted(lines: seq<string>, parse: NumberParser): seq<Reading>
  {
    if lines == [] then []
    else
      (match Decode(lines[0], parse) case Some(rd) => [rd] case None => []) + Accepted(lines[1..], parse)
  }

  lemma {:induction false} AcceptedAppend(a: seq<string>, b: seq<string>, parse: NumberParser)
    ensures Accepted(a + b, parse) == Accepted(a, parse) + Accepted(b, parse)
    decreases |a|
  {
    if a == [] {
      assert a + b == b;
    } else {
      assert (a + b)[1..] == a[1..] + b;
      AcceptedAppend(a[1..], b, parse);
    }
  }

  /** One more line adds its frame when it decodes, and nothing when it does not. */
  lemma AcceptedStep(lines: seq<string>, i: nat, parse: NumberParser)
    requires i < |lines|
    ensures Decode(lines[i], parse).Some? ==>
              Accepted(lines[..i + 1], parse) == Accepted(lines[..i], parse) + [Decode(lines[i], parse).value]
    ensures Decode(lines[i], parse).None? ==> Accepted(lines[..i + 1], parse) == Accepted(lines[..i], parse)
  {
    assert lines[..i + 1] == lines[..i] + [lines[i]];
    AcceptedAppend(lines[..i], [lines[i]], parse);
    assert [lines[i]][1..] == [];
    assert Accepted(lines[..i], parse) + [] == Accepted(lines[..i], parse);
  }

  /** The frames of all the lines, read as their longest prefix. */
  lemma AcceptedWhole(lines: seq<string>, parse: NumberParser)
    ensures Accepted(lines[..|lines|], parse) == Accepted(lines, parse)
  {
    assert lines[..|lines|] == lines;
  }

  /**
   * A malformed line between two well-formed ones is dropped: the stream yields
   * exactly the two good frames, in their original order.
   */
  lemma AcceptedSkipsMalformed(first: string, bad: string, second: string, parse: NumberParser)
    requires Decode(first, parse).Some? && Decode(bad, parse).None? && Decode(second, parse).Some?
    ensures Accepted([first, bad, second], parse) == [Decode(first, parse).value, Decode(second, parse).value]
  {
    var lines := [first, bad, second];
    assert lines[1..][1..][1..] == [];
    assert Accepted(lines[1..][1..], parse) == [Decode(second, parse).value];
    assert Accepted(lines[1..], parse) == [Decode(second, parse).value];
  }

  // ---------------------------------------------------------------------------
  // Applying frames
  // ---------------------------------------------------------------------------

  /**
   * The part of the window that assigning and displaying a frame changes: the
   * seven quantities, the running altitude, the boxes, and the history of
   * deltas and frames applied.
   */
  datatype Telemetry = Telemetry(heading: real, pitch: real, roll: real, deltaAltitude: real,
                                 temperature: real, humidity: real, pressure: real,
                                 currentAltitude: real, display: Boxes,
                                 deltasSinceClear: seq<real>, published: seq<Reading>)

  /**
   * The window after frame `rd` is assigned and displayed: the quantities are
   * the frame's, the angles in radians; the delta joins the running altitude;
   * the boxes show the frame in degrees and the altitude box follows the mode.
   */
  function Applied(s: Telemetry, rd: Reading, useDeltaAltitude: bool): Telemetry
  {
    var altitude := s.currentAltitude + rd.deltaAltitude;
    Telemetry(ConvertToRad(rd.heading), ConvertToRad(rd.pitch), ConvertToRad(rd.roll), rd.deltaAltitude,
              rd.temperature, rd.humidity, rd.pressure, altitude,
              Showing(rd, AltitudeShown(useDeltaAltitude, rd.deltaAltitude, altitude)),
              s.deltasSinceClear + [rd.deltaAltitude], s.published + [rd])
  }

  /** The window after each of the frames is applied in turn. */
  function AppliedAll(s: Telemetry, frames: seq<Reading>, useDeltaAltitude: bool): Telemetry
    decreases |frames|
  {
    if frames == [] then s
    else Applied(AppliedAll(s, frames[..|frames| - 1], useDeltaAltitude), frames[|frames| - 1], useDeltaAltitude)
  }

  /**
   * The window holds frame `rd`: its quantities, the angles turned to radians,
   * and the boxes show it, the altitude box by the display mode.
   */
  predicate Shows(s: Telemetry, rd: Reading, useDeltaAltitude: bool)
  {
    s.heading == ConvertToRad(rd.heading) && s.pitch == ConvertToRad(rd.pitch) && s.roll == ConvertToRad(rd.roll) &&
    s.deltaAltitude == rd.deltaAltitude && s.temperature == rd.temperature &&
    s.humidity == rd.humidity && s.pressure == rd.pressure &&
    s.display == Showing(rd, AltitudeShown(useDeltaAltitude, rd.deltaAltitude, s.currentAltitude))
  }

  /** A window whose every part is what applying `rd` to `s` gives is `Applied(s, rd, useDeltaAltitude)`. */
  lemma AppliedFieldwise(s: Telemetry, rd: Reading, useDeltaAltitude: bool, t: Telemetry)
    requires t.heading == ConvertToRad(rd.heading) && t.pitch == ConvertToRad(rd.pitch)
    requires t.roll == ConvertToRad(rd.roll) && t.deltaAltitude == rd.deltaAltitude
    requires t.temperature == rd.temperature && t.humidity == rd.humidity && t.pressure == rd.pressure
    requires t.currentAltitude == s.currentAltitude + rd.deltaAltitude
    requires t.display == Showing(rd, AltitudeShown(useDeltaAltitude, rd.deltaAltitude, t.currentAltitude))
    requires t.deltasSinceClear == s.deltasSinceClear + [rd.deltaAltitude] && t.published == s.published + [rd]
    ensures t == Applied(s, rd, useDeltaAltitude)
  {
  }

  /** Applying one more frame is applying it to the window the others left. */
  lemma AppliedAllSnoc(s: Telemetry, frames: seq<Reading>, rd: Reading, useDeltaAltitude: bool)
    ensures AppliedAll(s, frames + [rd], useDeltaAltitude) == Applied(AppliedAll(s, frames, useDeltaAltitude), rd, useDeltaAltitude)
  {
    assert (frames + [rd])[..|frames|] == frames;
  }

  /**
   * What a run of frames does to the window: no frames change nothing; the
   * frames join the history in order; the running altitude grows by exactly
   * their deltas; and the window holds the last of them.
   */
  lemma {:induction false} AppliedAllHistory(s: Telemetry, frames: seq<Reading>, useDeltaAltitude: bool)
    ensures frames == [] ==> AppliedAll(s, frames, useDeltaAltitude) == s
    ensures AppliedAll(s, frames, useDeltaAltitude).published == s.published + frames
    ensures AppliedAll(s, frames, useDeltaAltitude).deltasSinceClear == s.deltasSinceClear + DeltasOf(frames)
    ensures AppliedAll(s, frames, useDeltaAltitude).currentAltitude == s.currentAltitude + Total(DeltasOf(frames))
    ensures frames != [] ==> Shows(AppliedAll(s, frames, useDeltaAltitude), frames[|frames| - 1], useDeltaAltitude)
    decreases |frames|
  {
    if frames != [] {
      var init, rd := frames[..|frames| - 1], frames[|frames| - 1];
      AppliedAllHistory(s, init, useDeltaAltitude);
      assert frames == init + [rd];
      DeltasStep(init, rd);
      TotalSnoc(DeltasOf(init), rd.deltaAltitude);
    }
  }

  /** Applying frames keeps the running altitude equal to the sum of the deltas since the last clear. */
  lemma AppliedAllConsistent(s: Telemetry, frames: seq<Reading>, useDeltaAltitude: bool)
    requires s.currentAltitude == Total(s.deltasSinceClear)
    ensures AppliedAll(s, frames, useDeltaAltitude).currentAltitude
         == Total(AppliedAll(s, frames, useDeltaAltitude).deltasSinceClear)
  {
    AppliedAllHistory(s, frames, useDeltaAltitude);
    TotalAppend(s.deltasSinceClear, DeltasOf(frames));
  }

  // ---------------------------------------------------------------------------
  // The window
  // ---------------------------------------------------------------------------

  class MainWindow {
    /** `_serialPort.IsOpen` */
    var portOpen: bool
    /** `_continue`: the reader loop's run flag */
    var continueReading: bool
    /** `readThread != null` */
    var readerStarted: bool

    var heading: real
    var pitch: real
    var roll: real
    var deltaAltitude: real
    var temperature: real
    var humidity: real
    var pressure: real
    var currentAltitude: real
    var useDeltaAltitude: bool

    /** The seven read-out text boxes. */
    var display: Boxes

    var closeSerialMenuEnabled: bool
    var openSerialMenuEnabled: bool
    var openSerialButtonEnabled: bool
    var closeSerialButtonEnabled: bool
    var abortEnabled: bool
    var launchEnabled: bool
    var aux1Enabled: bool
    var aux2Enabled: bool
    var aux3Enabled: bool
    var deployParachuteEnabled: bool

    /** The altitude deltas applied since the window opened or was last cleared. */
    ghost var deltasSinceClear: seq<real>
    /** Every frame applied to the window, in receipt order. */
    ghost var published: seq<Reading>

    /** The running altitude is the sum of the deltas applied since the last clear. */
    ghost predicate Valid()
      reads this`currentAltitude, this`deltasSinceClear
    {
      currentAltitude == Total(deltasSinceClear)
    }

    ghost function Commands(): Controls
      reads this`closeSerialMenuEnabled, this`openSerialMenuEnabled, this`openSerialButtonEnabled,
            this`closeSerialButtonEnabled, this`abortEnabled, this`launchEnabled,
            this`aux1Enabled, this`aux2Enabled, this`aux3Enabled, this`deployParachuteEnabled
    {
      Controls(closeSerialMenuEnabled, openSerialMenuEnabled, openSerialButtonEnabled,
               closeSerialButtonEnabled, abortEnabled, launchEnabled, aux1Enabled, aux2Enabled,
               aux3Enabled, deployParachuteEnabled)
    }

    /** The fields that assigning and displaying a frame change, with the ghost history. */
    ghost function State(): Telemetry
      reads this`heading, this`pitch, this`roll, this`deltaAltitude, this`temperature,
            this`humidity, this`pressure, this`currentAltitude, this`display,
            this`deltasSinceClear, this`published
    {
      Telemetry(heading, pitch, roll, deltaAltitude, temperature, humidity, pressure,
                currentAltitude, display, deltasSinceClear, published)
    }

    /**
     * A new window: port closed, reader not started, all quantities and the
     * running altitude 0, delta display on. The initial enable state of the
     * controls and the initial text of the boxes are laid out in the window's
     * markup, so they are given here.
     */
    constructor (initial: Controls, boxes: Boxes)
      ensures Valid()
      ensures !portOpen && !continueReading && !readerStarted
      ensures heading == 0.0 && pitch == 0.0 && roll == 0.0 && deltaAltitude == 0.0
      ensures temperature == 0.0 && humidity == 0.0 && pressure == 0.0
      ensures currentAltitude == 0.0 && useDeltaAltitude
      ensures display == boxes && Commands() == initial
      ensures deltasSinceClear == [] && published == []
    {
      portOpen, continueReading, readerStarted := false, false, false;
      heading, pitch, roll, deltaAltitude := 0.0, 0.0, 0.0, 0.0;
      temperature, humidity, pressure := 0.0, 0.0, 0.0;
      currentAltitude := 0.0;
      useDeltaAltitude := true;
      display := boxes;
      closeSerialMenuEnabled, openSerialMenuEnabled := initial.closeSerialMenu, initial.openSerialMenu;
      openSerialButtonEnabled, closeSerialButtonEnabled := initial.openSerialButton, initial.closeSerialButton;
      abortEnabled, launchEnabled := initial.abortButton, initial.launchButton;
      aux1Enabled, aux2Enabled, aux3Enabled := initial.aux1Button, initial.aux2Button, initial.aux3Button;
      deployParachuteEnabled := initial.deployParachuteButton;
      deltasSinceClear, published := [], [];
    }

    /** The delta-altitude checkbox: the display mode follows the box's checked state. */
    method CheckboxClick(isChecked: bool)
      modifies this`useDeltaAltitude
      ensures useDeltaAltitude == isChecked
    {
      if !isChecked {
        useDeltaAltitude := false;
      } else {
        useDeltaAltitude := true;
      }
    }

    /** Negates the enable flag of each of the ten serial-related controls. */
    method ToggleCommands()
      modifies this`closeSerialMenuEnabled, this`openSerialMenuEnabled, this`openSerialButtonEnabled,
               this`closeSerialButtonEnabled, this`abortEnabled, this`launchEnabled,
               this`aux1Enabled, this`aux2Enabled, this`aux3Enabled, this`deployParachuteEnabled
      ensures Commands() == Flipped(old(Commands()))
    {
      closeSerialMenuEnabled := !closeSerialMenuEnabled;
      openSerialMenuEnabled := !openSerialMenuEnabled;
      openSerialButtonEnabled := !openSerialButtonEnabled;
      closeSerialButtonEnabled := !closeSerialButtonEnabled;
      abortEnabled := !abortEnabled;
      launchEnabled := !launchEnabled;
      aux1Enabled := !aux1Enabled;
      aux2Enabled := !aux2Enabled;
      aux3Enabled := !aux3Enabled;
      deployParachuteEnabled := !deployParachuteEnabled;
    }

    /**
     * Opens the port and starts the reader. `openFails` says whether the port
     * driver refuses to open (the device is missing or busy); a port that is
     * already open is refused as well. On a refusal nothing changes; otherwise
     * the reader's run flag is raised and the controls are toggled.
     */
    method OpenSerial(openFails: bool)
      modifies this`portOpen, this`continueReading, this`readerStarted,
               this`closeSerialMenuEnabled, this`openSerialMenuEnabled, this`openSerialButtonEnabled,
               this`closeSerialButtonEnabled, this`abortEnabled, this`launchEnabled,
               this`aux1Enabled, this`aux2Enabled, this`aux3Enabled, this`deployParachuteEnabled
      ensures old(portOpen) || openFails ==> unchanged(this)
      ensures !old(portOpen) && !openFails ==>
                portOpen && continueReading && readerStarted && Commands() == Flipped(old(Commands()))
      ensures old(MatchesPort(Commands(), portOpen)) ==> MatchesPort(Commands(), portOpen)
    {
      if portOpen || openFails {
        // Open() throws; the handler only logs the message
        return;
      }
      portOpen := true;
      continueReading := true;
      readerStarted := true;
      ToggleCommands();
      FlippedMatches(old(Commands()), false);
    }

    /**
     * Lowers the reader's run flag, closes the port and toggles the controls,
     * whether or not the port was open. Controls that matched an open port
     * match the closed one afterwards; controls that matched a closed port no
     * longer match it.
     */
    method CloseSerial()
      modifies this`portOpen, this`continueReading,
               this`closeSerialMenuEnabled, this`openSerialMenuEnabled, this`openSerialButtonEnabled,
               this`closeSerialButtonEnabled, this`abortEnabled, this`launchEnabled,
               this`aux1Enabled, this`aux2Enabled, this`aux3Enabled, this`deployParachuteEnabled
      ensures !continueReading && !portOpen
      ensures Commands() == Flipped(old(Commands()))
      ensures old(MatchesPort(Commands(), portOpen)) ==> (MatchesPort(Commands(), portOpen) <==> old(portOpen))
    {
      continueReading := false;
      portOpen := false;
      ToggleCommands();
      FlippedMatches(old(Commands()), old(portOpen));
      FlippedMatches(old(Commands()), !old(portOpen));
    }

    /**
     * Clears the read-outs and the running altitude, but only while the port is
     * closed; with the port open nothing changes.
     */
    method Clear()
      requires Valid()
      modifies this`display, this`currentAltitude, this`deltasSinceClear
      ensures Valid()
      ensures !old(portOpen) ==> currentAltitude == 0.0 && display == Cleared && deltasSinceClear == []
      ensures old(portOpen) ==> unchanged(this)
    {
      if !portOpen {
        display := Cleared;
        currentAltitude := 0.0;
        deltasSinceClear := [];
      }
    }

    /** The altitude lines of the display update: the delta joins the running altitude. */
    method AccumulateAltitude()
      requires Valid()
      modifies this`currentAltitude, this`deltasSinceClear
      ensures Valid()
      ensures currentAltitude == old(currentAltitude) + deltaAltitude
      ensures deltasSinceClear == old(deltasSinceClear) + [deltaAltitude]
    {
      TotalSnoc(deltasSinceClear, deltaAltitude);
      currentAltitude := currentAltitude + deltaAltitude;
      deltasSinceClear := deltasSinceClear + [deltaAltitude];
    }

    /**
     * Shows the last frame: the angles in degrees, then the angles turned to
     * radians in place; the delta added to the running altitude whatever the
     * display mode; the altitude box showing the delta in delta mode and the
     * new running altitude otherwise.
     */
    method UpdateTextBoxes()
      requires Valid()
      modifies this`heading, this`pitch, this`roll, this`currentAltitude, this`deltasSinceClear, this`display
      ensures Valid()
      ensures currentAltitude == old(currentAltitude) + deltaAltitude
      ensures deltasSinceClear == old(deltasSinceClear) + [deltaAltitude]
      ensures heading == ConvertToRad(old(heading)) && pitch == ConvertToRad(old(pitch))
      ensures roll == ConvertToRad(old(roll))
      ensures display == Showing(old(Reading(heading, pitch, roll, deltaAltitude, temperature, humidity, pressure)),
                                 AltitudeShown(useDeltaAltitude, deltaAltitude, currentAltitude))
    {
      var inDegrees := Reading(heading, pitch, roll, deltaAltitude, temperature, humidity, pressure);

      heading := ConvertToRad(heading);
      pitch := ConvertToRad(pitch);
      roll := ConvertToRad(roll);

      AccumulateAltitude();
      display := Showing(inDegrees, AltitudeShown(useDeltaAltitude, deltaAltitude, currentAltitude));
    }

    /** The seven quantities of a decoded frame, assigned by position; the frame joins the history. */
    method AssignFrame(rd: Reading)
      modifies this`heading, this`pitch, this`roll, this`deltaAltitude, this`temperature,
               this`humidity, this`pressure, this`published
      ensures heading == rd.heading && pitch == rd.pitch && roll == rd.roll && deltaAltitude == rd.deltaAltitude
      ensures temperature == rd.temperature && humidity == rd.humidity && pressure == rd.pressure
      ensures published == old(published) + [rd]
    {
      heading := rd.heading;
      pitch := rd.pitch;
      roll := rd.roll;
      deltaAltitude := rd.deltaAltitude;
      temperature := rd.temperature;
      humidity := rd.humidity;
      pressure := rd.pressure;
      published := published + [rd];
    }

    /** Applies one decoded frame: its quantities by position, then the display update. */
    method ApplyFrame(rd: Reading)
      requires Valid()
      modifies this`heading, this`pitch, this`roll, this`deltaAltitude, this`temperature,
               this`humidity, this`pressure, this`currentAltitude, this`deltasSinceClear, this`published,
               this`display
      ensures Valid()
      ensures State() == Applied(old(State()), rd, useDeltaAltitude)
    {
      AssignFrame(rd);
      assert Reading(heading, pitch, roll, deltaAltitude, temperature, humidity, pressure) == rd;
      UpdateTextBoxes();
      AppliedFieldwise(old(State()), rd, useDeltaAltitude, State());
    }

    /**
     * One pass of the reader loop on a received line: a line that decodes is
     * applied; a line whose decoding throws leaves the window as it was.
     */
    method ProcessLine(inputData: string, parse: NumberParser) returns (decoded: Option<Reading>)
      requires Valid()
      modifies this`heading, this`pitch, this`roll, this`deltaAltitude, this`temperature,
               this`humidity, this`pressure, this`currentAltitude, this`deltasSinceClear, this`published,
               this`display
      ensures Valid()
      ensures decoded == Decode(inputData, parse)
      ensures decoded.None? ==> unchanged(this)
      ensures decoded.Some? ==> State() == Applied(old(State()), decoded.value, useDeltaAltitude)
    {
      decoded := DecodeLine(inputData, parse);
      if decoded.Some? {
        ApplyFrame(decoded.value);
      }
    }

    /**
     * The reader loop over the lines the port delivers: while the run flag is
     * up, each line that decodes is applied and each that does not is dropped.
     * Afterwards the window is as it was when no line was accepted, and
     * otherwise shows the last accepted frame; the running altitude has grown
     * by exactly the deltas of the accepted frames.
     */
    method Read(lines: seq<string>, parse: NumberParser)
      requires Valid()
      modifies this`heading, this`pitch, this`roll, this`deltaAltitude, this`temperature,
               this`humidity, this`pressure, this`currentAltitude, this`deltasSinceClear, this`published,
               this`display
      ensures Valid()
      ensures !continueReading ==> unchanged(this)
      ensures continueReading ==> State() == AppliedAll(old(State()), Accepted(lines, parse), useDeltaAltitude)
      ensures continueReading && Accepted(lines, parse) == [] ==> unchanged(this)
      ensures continueReading ==> published == old(published) + Accepted(lines, parse)
      ensures continueReading ==> deltasSinceClear == old(deltasSinceClear) + DeltasOf(Accepted(lines, parse))
      ensures continueReading ==> currentAltitude == old(currentAltitude) + Total(DeltasOf(Accepted(lines, parse)))
      ensures continueReading && Accepted(lines, parse) != [] ==>
                Shows(State(), Accepted(lines, parse)[|Accepted(lines, parse)| - 1], useDeltaAltitude)
    {
      if continueReading {
        ReadLines(lines, parse);
        AppliedAllHistory(old(State()), Accepted(lines, parse), useDeltaAltitude);
      }
    }

    /** The body of the reader loop, run on each line in turn. */
    method ReadLines(lines: seq<string>, parse: NumberParser)
      requires Valid()
      modifies this`heading, this`pitch, this`roll, this`deltaAltitude, this`temperature,
               this`humidity, this`pressure, this`currentAltitude, this`deltasSinceClear, this`published,
               this`display
      ensures Valid()
      ensures State() == AppliedAll(old(State()), Accepted(lines, parse), useDeltaAltitude)
    {
      for i := 0 to |lines|
        invariant Valid()
        invariant State() == AppliedAll(old(State()), Accepted(lines[..i], parse), useDeltaAltitude)
      {
        AcceptedStep(lines, i, parse);
        var decoded := ProcessLine(lines[i], parse);
        if decoded.Some? {
          AppliedAllSnoc(old(State()), Accepted(lines[..i], parse), decoded.value, useDeltaAltitude);
        }
      }
      AcceptedWhole(lines, parse);
    }
  }
}
