# Rocketware telemetry window — a Dafny model

Rocketware is a ground-station window for a model rocket. A reader thread takes
tab-separated text lines from the serial port. Each line carries seven numbers:
heading, pitch, roll, altitude change, temperature, humidity and pressure. The
window shows them in seven boxes and keeps a running altitude. Menu items and
buttons open and close the port. Opening or closing flips the enable state of
ten serial-related controls.

This project models the logic core of `MainWindow.xaml.cs`:

- `Wrappers.dfy` holds the `Option` type.
- `Frame.dfy` (module `Frame`) models how one line is decoded:
  - `DeleteChar`, the character filter, as a method with a loop;
  - the split on tab;
  - the clean / skip-empty / parse-into-`float[7]` loop, as a method;
  - the positional read-off of the seven quantities.
- `Window.dfy` (module `Rocketware`) models the window.
  - Class `MainWindow` has the fields the source updates in place: the seven
    quantities, `currentAltitude`, `useDeltaAltitude`, the port and run flags,
    the ten enable flags and the seven read-out boxes.
  - Its methods are `ToggleCommands`, `OpenSerial`, `CloseSerial`, `Clear`,
    `UpdateTextBoxes` (with its altitude step `AccumulateAltitude`), the
    checkbox handler, and the reader loop `Read` over a sequence of received
    lines. The loop is split into `ReadLines`, one pass `ProcessLine`, and the
    assignment and display of a frame `ApplyFrame` (`AssignFrame`, then
    `UpdateTextBoxes`).
  - Module-level functions state the meaning of what the methods do:
    - `Deleted` is the cleaned string.
    - `Fields` is the non-empty cleaned pieces.
    - `Decode` is the frame a line yields.
    - `Total` is the accumulated altitude.
    - `Accepted` is the frames a stream of lines yields.
    - `Applied` and `AppliedAll` are the window after one frame or a run of
      frames is assigned and displayed.
    - `Flipped` and `MatchesPort` describe the enable flags.

`float.Parse` is a parameter `parse: string -> Option<real>`. `None` stands for
the exception it throws. The real serial port is modelled as follows:

- The port's open state is a boolean field.
- Whether `Open()` throws is the argument `openFails`.
- The lines `ReadLine` would return are the argument of `Read`.

A frame with fewer than seven non-empty fields is accepted, and the buffer's
unfilled trailing slots keep their default 0 (see `Frame.DecodeOutcome`). The
code rejects a frame only when a loop iteration throws, and the empty handler
swallows that exception. Two cases throw: a non-empty field that does not
parse, and an eighth non-empty field, which indexes past the seven-slot buffer.
A rejected line assigns none of the seven quantities, because they are assigned
only after the loop over the fields completes.

What assigning and displaying a frame does to the window is the pure function
`Applied` on a `Telemetry` value (the seven quantities, the running altitude,
the boxes and the history of applied frames and deltas); `AppliedAll` applies
a run of frames in turn. The window's methods are proved against these
functions, and the lemmas about them state what a run of frames does.

## Model

| member | source | states |
|---|---|---|
| Frame.DeleteChar | MainWindow.xaml.cs:433-446 | the loop's output is `Deleted(input, c)`: the input's characters other than `c`, CR and LF, in order |
| Frame.DeletedAppend | MainWindow.xaml.cs:437-443 | cleaning goes character by character: cleaning `a + b` is cleaning `a` followed by cleaning `b` |
| Frame.DeletedCounts | MainWindow.xaml.cs:433-446 | in the output, each unwanted character occurs 0 times and every other character as often as in the input |
| Frame.DeletedIsClean | MainWindow.xaml.cs:439-442 | the output holds no `charToDelete`, no `'\r'` and no `'\n'`, interior positions included |
| Frame.DeletedIdentity | MainWindow.xaml.cs:433-446 | cleaning leaves a string unchanged if and only if it holds none of the three characters |
| Frame.DeletedIdempotent | MainWindow.xaml.cs:433-446 | cleaning an already cleaned string changes nothing |
| Frame.JoinSplit | MainWindow.xaml.cs:316 | splitting on tab loses nothing: re-joining the pieces with tabs gives the line back |
| Frame.SplitSeparatorFree | MainWindow.xaml.cs:316 | no piece of a split line contains the separator |
| Frame.SplitJoin | MainWindow.xaml.cs:316 | tab-free pieces joined with tabs split back into exactly those pieces, empty pieces included |
| Frame.FieldsAppend | MainWindow.xaml.cs:321-333 | the fields of two runs of pieces are the fields of the first run followed by those of the second |
| Frame.FieldsSkipBlank | MainWindow.xaml.cs:324-332 | a piece that is empty after cleaning contributes nothing wherever it stands, so it does not advance `j`; this covers consecutive tabs and pieces made only of blanks and line ends |
| Frame.FieldsAreClean | MainWindow.xaml.cs:324-330 | every field handed to the parser is non-empty and free of blanks, CR and LF |
| Frame.FieldsOfCleanPieces | MainWindow.xaml.cs:321-333 | pieces that are already non-empty and clean pass through the cleaning unchanged and in order |
| Frame.DecodePieces | MainWindow.xaml.cs:317-342 | the clean / skip / parse-into-`float[7]` loop with running index `j` yields `DecodeFields(Fields(pieces))`: the k-th field in slot k, or `None` when an iteration throws |
| Frame.DecodeLine | MainWindow.xaml.cs:314-342 | one iteration of the reader loop, from the split to the read-off of the seven quantities, yields `Decode(line)` |
| Frame.DecodeRejects | MainWindow.xaml.cs:327-331 | once a field fails to parse, or would be the eighth, the line is rejected whatever follows it |
| Frame.DecodeOutcome | MainWindow.xaml.cs:316-342 | a line is accepted if and only if it has at most seven fields and all of them parse; then slot k holds the k-th field's number and the slots past the last field hold 0 |
| Frame.DecodeFieldsSlots | MainWindow.xaml.cs:336-342 | heading, pitch, roll, deltaAltitude, temperature, humidity and pressure are slots 0 to 6 of the buffer, in that order |
| Frame.DecodeJoined | MainWindow.xaml.cs:316-342 | one to seven clean, parsable numbers joined by tabs decode back to those numbers in order, with the rest of the slots 0 |
| Rocketware.FlippedTwice | MainWindow.xaml.cs:545-558 | toggling the ten controls twice restores every flag |
| Rocketware.FlippedMatches | MainWindow.xaml.cs:545-558 | toggling turns controls matching one port state into controls matching the other state, and only those |
| Rocketware.TotalAppend | MainWindow.xaml.cs:399 | the running altitude over two runs of frames is the sum of the two runs' totals |
| Rocketware.TotalSnoc | MainWindow.xaml.cs:399 | one more frame adds its delta to the running altitude |
| Rocketware.AccumulateExample | MainWindow.xaml.cs:399 | deltas of +1, -0.5 and +2 from a cleared altitude accumulate to 2.5 |
| Rocketware.DeltasOfAppend | MainWindow.xaml.cs:399 | the deltas of two runs of frames are the first run's deltas followed by the second's |
| Rocketware.AltitudeStep | MainWindow.xaml.cs:399 | each accepted frame raises the accumulated altitude by exactly its own delta |
| Rocketware.AcceptedAppend | MainWindow.xaml.cs:309-350 | the frames of two runs of lines are the frames of the first run followed by those of the second, in receipt order |
| Rocketware.AcceptedStep | MainWindow.xaml.cs:314-350 | a line adds its frame to the stream when it decodes and adds nothing when the loop body throws |
| Rocketware.AcceptedSkipsMalformed | MainWindow.xaml.cs:350 | a malformed line between two good ones is dropped, and the two good frames come out in their original order |
| Rocketware.MainWindow.constructor | MainWindow.xaml.cs:21-36 | a new window has the port closed, the reader not started, the running altitude 0 and delta display on; the controls and boxes are as the markup gives them |
| Rocketware.MainWindow.CheckboxClick | MainWindow.xaml.cs:189-203 | the delta-display flag follows the checkbox's checked state |
| Rocketware.MainWindow.ToggleCommands | MainWindow.xaml.cs:545-558 | negates each of the ten enable flags |
| Rocketware.MainWindow.OpenSerial | MainWindow.xaml.cs:511-530 | when `Open()` throws, nothing changes; otherwise the port is open, the run flag is up, the reader is started and the controls are toggled; controls that matched the port still match it |
| Rocketware.MainWindow.CloseSerial | MainWindow.xaml.cs:451-463 | always lowers the run flag, closes the port and toggles the controls; controls that matched an open port match the closed port afterwards |
| Rocketware.MainWindow.Clear | MainWindow.xaml.cs:485-506 | with the port closed, the seven boxes show "-" and the running altitude is 0; with the port open nothing changes; the running altitude is always the sum of the deltas since the last clear |
| Rocketware.MainWindow.AccumulateAltitude | MainWindow.xaml.cs:398-399 | the delta is added to the running altitude and joins the deltas since the last clear, so the altitude stays their sum |
| Rocketware.MainWindow.UpdateTextBoxes | MainWindow.xaml.cs:357-415 | the angle boxes show the angles in degrees, then the angles are converted to radians in place; the delta is added to the running altitude whatever the display mode; the altitude box shows the delta in delta mode and the new running altitude otherwise; temperature, humidity and pressure boxes show those quantities with their suffixes |
| Rocketware.MainWindow.AssignFrame | MainWindow.xaml.cs:336-342 | the seven quantities take slots 0 to 6 of the frame, in order |
| Rocketware.MainWindow.ApplyFrame | MainWindow.xaml.cs:336-348 | assigning a frame and running the display update leaves the window in the state `Applied` gives for that frame and the display mode |
| Rocketware.MainWindow.ProcessLine | MainWindow.xaml.cs:314-350 | one pass of the reader loop: the line's frame is `Decode(line)`; a line that does not decode leaves every field of the window as it was; a line that does is applied |
| Rocketware.MainWindow.ReadLines | MainWindow.xaml.cs:309-350 | after the loop over the lines the window is the state `AppliedAll` gives for the accepted frames, in receipt order, and the running altitude is still the sum of the deltas since the last clear |
| Rocketware.MainWindow.Read | MainWindow.xaml.cs:307-350 | with the run flag down nothing changes; with it up: when no line is accepted nothing changes; the history grows by exactly the accepted frames and their deltas, the running altitude by exactly their sum; the window holds the last accepted frame (its quantities with angles in radians, and the boxes showing it) |
| Rocketware.ConvertToRad | MainWindow.xaml.cs:422-425 | radians × 180 equals π × degrees: a full turn of 360 degrees is 2π |
| Rocketware.AppliedAllSnoc | MainWindow.xaml.cs:309-350 | applying one more frame is applying it to the window the earlier frames left |
| Rocketware.AppliedAllHistory | MainWindow.xaml.cs:336-415 | no frames change nothing; the frames join the history in order; the running altitude grows by exactly their deltas; a non-empty run leaves the window holding its last frame, angles in radians and boxes showing it |
| Rocketware.AppliedAllConsistent | MainWindow.xaml.cs:399 | applying frames keeps the running altitude equal to the sum of the deltas since the last clear |
| Rocketware.DeltasStep | MainWindow.xaml.cs:399 | one more frame appends exactly its own delta to the deltas |

## Left out

- Serial I/O is not modelled: `ReadLine`, `Write`, `Open` and `Close` of the port, and port enumeration are calls into the host library. The open state is a boolean. A failing `Open()` is the argument `openFails`. The received lines are the argument of `Read`. A read timeout is not distinguished from any other exception.
- The reader thread, `Thread.Join` and `Dispatcher.BeginInvoke` are not modelled. Everything runs sequentially: each accepted frame is assigned and displayed before the next line is read. In the source the display update is queued (MainWindow.xaml.cs:345-348) and reads the fields only when the dispatcher runs it. If a second frame is assigned before the first update runs, both updates see the second frame: its delta is added twice, the first frame's delta is never added, and its angles are converted to radians twice. The properties of `Read` and `AppliedAllHistory` (the running altitude grows by exactly the accepted deltas, the window holds the last frame) hold only for the sequential schedule.
- `float.Parse` is the parameter `parse`. Its culture-dependent grammar and IEEE rounding are not modelled. All quantities are exact reals, so `float` precision, widening to `double` and `double` rounding in `ConvertToRad` are left out.
- The Euler-to-axis-angle rotation of the 3D model (MainWindow.xaml.cs:369-396) is not modelled: it is floating-point trigonometry. Only its side effect on the data is kept: `UpdateTextBoxes` overwrites heading, pitch and roll with their radian values.
- Number formatting is not modelled. A box holds the value and its unit suffix (`Suffix` gives the suffix texts), not the text `double.ToString` would produce. The altitude label text set by the checkbox handler is left out.
- The log (`OutputToLog`), saving it on `Exit`, the dialogs, the six command buttons and the rocket model loading are left out: they are UI and file I/O.
- Rocketware.MainWindow.constructor: the controls' initial enable flags and the boxes' initial text are arguments, because the window's markup sets them and the markup is not part of this model.
- Rocketware.MainWindow.OpenSerial: an already-open port is treated like a failing `Open()`, which the host's port object throws for.
- Frame.DecodePieces: the split pieces are a local sequence updated by index, not an array. Nothing else holds a reference to that array in the source. The seven-slot buffer is an array.
