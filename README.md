# Agricultural picking robot: detection filter and arm state

This project models, in Dafny, the two parts of the picking robot's control code that
carry behaviour of their own:

- **The detection filter** (`analyze_frame` in `src/analysis/model_interface.py`). The
  detection service's reply is parsed JSON. When the reply is missing, empty or has no
  `results` key, an empty list is returned. Otherwise the `results` list is walked in order and
  every entry named `tomato` whose score is strictly above 0.7 becomes a record holding
  the centre of its bounding box, the box and the score. A missing score counts as 0.
  Module `Analysis` (`analysis.dfy`) gives the reply as a datatype, the loop as the
  method `AnalyzeFrame`, and its specification as the recursive function `Targets`.
  The lemmas about `Targets` state soundness, completeness, one record per qualifying
  entry, order, the strict threshold and the box centre.
- **The arm controller** (`src/robot/arm_controller.py`). Its one field `position`
  starts at `(0, 0, 0)`. `move_to` overwrites it and `calibrate` resets it to the
  origin. Module `Robot` (`robot.dfy`) has the class `ArmController` with that field.
  A ghost call history ties the field to `Run`, a pure function that gives the position
  any sequence of calls leads to. The lemmas about `Run` state last-write-wins, reset
  and idempotence.

`wrappers.dfy` holds the `Option` type used for absent JSON keys and a missing reply.

The reply itself is an input. Fetching it means encoding the frame as JPEG, wrapping it
in base64 and sending an HTTP POST; none of that is modelled. The code reads only the
`results` key and the `name` label. A reply keyed `detections`, or an entry labelled
through `class`, gives no records, and the model does the same.

## Model

| member | source | states |
|---|---|---|
| `Analysis.AnalyzeFrame` | src/analysis/model_interface.py:37-48 | the loop returns `[]` for a missing reply or a reply without `results`, and otherwise exactly the records `Targets` specifies for the `results` list |
| `Analysis.Targets` | src/analysis/model_interface.py:40-48 | the filter's output is never longer than the `results` list |
| `Analysis.QualifyingIndices` | src/analysis/model_interface.py:41-42 | the positions of the entries that pass the filter, strictly increasing; each one qualifies and each qualifying position is listed |
| `Analysis.TargetsFollowQualifyingIndices` | src/analysis/model_interface.py:40-48 | the k-th record is the record of the k-th qualifying entry, and there are as many records as qualifying entries |
| `Analysis.TargetComesFromQualifyingObject` | src/analysis/model_interface.py:41-47 | every record comes from an entry named `tomato` with score above 0.7 |
| `Analysis.QualifyingObjectYieldsOneTarget` | src/analysis/model_interface.py:41-47 | every qualifying entry yields its record at exactly one output position |
| `Analysis.TargetsKeepInputOrder` | src/analysis/model_interface.py:40-47 | of two records, the earlier one comes from the earlier entry, so the filter is stable |
| `Analysis.TargetsAppend` | src/analysis/model_interface.py:40-47 | the output for two consecutive slices of `results` is the two outputs concatenated |
| `Analysis.NonQualifyingIgnored` | src/analysis/model_interface.py:42 | inserting an entry that fails the filter anywhere in `results` leaves the output unchanged |
| `Analysis.ThresholdIsStrict` | src/analysis/model_interface.py:42 | an entry scoring exactly 0.7, or with no score (read as 0), yields no record |
| `Analysis.OtherLabelsIgnored` | src/analysis/model_interface.py:42 | an entry whose name is not `tomato`, or is absent, yields no record whatever its score |
| `Analysis.ToTarget` | src/analysis/model_interface.py:44-47 | a record carries the entry's box and score unchanged; x is equidistant from `bbox[0]` and `bbox[2]` and lies between them, and likewise y with `bbox[1]` and `bbox[3]` |
| `Analysis.Midpoint` | src/analysis/model_interface.py:45-46 | the centre is equidistant from both ends and lies between them, in exact arithmetic |
| `Robot.ArmController.constructor` | src/robot/arm_controller.py:2-3 | a new controller is at the origin `(0, 0, 0)` with no calls made |
| `Robot.ArmController.MoveTo` | src/robot/arm_controller.py:5-7 | afterwards the position is the given coordinates, whatever it was before; nothing else changes |
| `Robot.ArmController.Calibrate` | src/robot/arm_controller.py:10-12 | afterwards the position is the origin, whatever it was before; nothing else changes |
| `Robot.RunSnoc` | src/robot/arm_controller.py:5-12 | one more call applies that call to the position the earlier calls led to |
| `Robot.OnlyLastCommandMatters` | src/robot/arm_controller.py:5-12 | after any non-empty sequence of calls the position is what the last call sets, independent of the starting position |
| `Robot.LastMoveWins` | src/robot/arm_controller.py:5-7 | two successive moves leave the arm at the second target |
| `Robot.CalibrateResets` | src/robot/arm_controller.py:10-12 | calibration returns the arm to the origin after any calls, a move included |
| `Robot.CalibrateIdempotent` | src/robot/arm_controller.py:10-12 | calibrating twice leaves the same position as calibrating once |
| `Robot.MoveThenCalibrateTwice` | src/robot/arm_controller.py:5-12 | on a live controller, a move followed by two calibrations ends at the origin, at the same position one calibration after the move leads to |

## Left out

- `send_frame` (src/analysis/model_interface.py:5-30): JPEG encoding, base64, the HTTP POST and the side write to `_last_result` are foreign calls and network I/O. Its result is the parameter `response` of `AnalyzeFrame`.
- The constructor of `ModelInterface` only stores the endpoint URL, which only `send_frame` uses.
- Scores are exact reals and the threshold is exactly 7/10. On every double the model agrees with Python's `> 0.7`, because the double nearest 0.7 lies below 7/10 and the next double lies above it. The gap is in parsing: a JSON decimal just above 7/10 (up to about 0.70000000000000001) rounds to that same double in Python and is dropped, while the model reads it exactly and keeps it.
- Box coordinates are integers (pixels) and the centres are exact rationals. Python's float division rounds only for sums beyond 2^53, which pixel coordinates never reach. Non-integer box coordinates are not modelled.
- A qualifying entry without a `bbox` key, or with fewer than four box values, makes the source raise an exception. The model makes a readable box a precondition (`BoxesPresent`) for qualifying entries only, and does not model the exception.
- Replies and entries of other JSON shapes are not modelled: `results` is a list and each entry is an object. In Python, an empty string or empty object as `results` loops zero times and gives `[]`. A non-empty one raises an error when `.get` is called on its items, and so does an entry that is not an object.
- Scores are numbers in the model. Python compares the score only for entries named `tomato`, because the `and` short-circuits. A non-numeric score on any other entry is skipped silently, and a boolean `True` score on a tomato passes the test (it compares as 1). Neither case is modelled.
- The `print` calls in `move_to` and `calibrate` (src/robot/arm_controller.py:8,13) are console output.
- `Robot.ArmController.MoveTo`: Python accepts any value as `coordinates`; the model takes a triple of reals. Python also stores the caller's own object in `position`, so a list the caller mutates after `move_to` changes the arm's position. The model's `Coordinates` is an immutable value, so this aliasing is not captured.
- The camera wrapper, the base controller (every method is `pass`), the helper functions, the settings and the main loop are not part of this model. The main loop indexes the list returned by `analyze_frame` with `'arm'` and `'base'`, which the list does not support.
