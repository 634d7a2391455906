# HandBrake folder watcher, modelled in Dafny

`handbrake_watcher.py` watches an input directory. It waits until each new
video file has stopped growing, then encodes it with `HandBrakeCLI`,
reporting progress from the encoder's output. When the encode succeeds it
moves the original to a "done" directory; when it fails it removes the
partial output. This project models the sequential decision logic of that
script as pure Dafny functions over explicit observations, and proves
what each decision promises.

Modules, one file each:

- `Wrappers`: `Option`.
- `Text`: the Python string operations the script relies on. These are
  `str.find`, `rfind`, `strip` (Python's whitespace set), `lower` (ASCII
  letters), `split` on one separator, and the inverse join.
- `Paths`: `Path.name`, `Path.suffix`, `Path.stem` and `dir / name` on
  canonical path strings.
- `Settings`: the configuration fields the decisions read, and the
  documented defaults. It also holds the `video_extensions` parser and the
  video-file test `suffix.lower() in VIDEO_EXTENSIONS`.
- `Stability`: `wait_for_file_stable`, a counter over a sequence of size
  polls.
- `Progress`: the loop over the encoder's output. It recognises progress
  lines, cuts out the percent and ETA text, throttles on whole
  percentages and picks out diagnostic lines.
- `Encoder`: `encode_video`. It derives the output and done paths and the
  command line. It then runs the per-file checks, and finally the outcome:
  rename, cleanup and the Boolean result.
- `Dispatcher`: `process_file` with its processing set, `on_created` and
  `on_moved`, and the startup part of `main` (installation check, preset
  check, scan of existing files).
- `Presets`: `check_preset_availability`. It looks up the preset among the
  stripped lines and lists the "General/" section.

Everything the script observes from the outside world is passed in as
data:
- A stability wait gets the sequence of polls it would make: a size, or
  `None` when `stat()` raised.
- `encode_video` gets an `Env` record. It says whether the version probe
  succeeded, whether the input exists before the launch and again after a
  zero exit, and whether an exception is raised. It also holds the child's
  output lines and exit status, whether the rename succeeds, whether an
  output file exists, and whether unlinking it succeeds.
- `float()` is a parameter `FloatReader`. It returns `NotANumber` (a
  `ValueError`), `Finite(w)` (the truncated whole part, as `int(percent)`
  computes it), or `TooLarge`. `TooLarge` stands for "inf" or "-inf",
  where `int(percent)` raises `OverflowError`. It also stands for a finite
  value so large that drawing the bar raises: `40 * percent` overflows to
  infinity, or the bar string does not fit in memory. The inner handler
  catches neither error, so it reaches `encode_video`'s outer handler.
- `process_file` gets a `World`: whether the path exists, its polls, its
  `Env`, and whether an exception escapes `encode_video`'s own handlers.

Where the code and its documentation differ, the model follows the code:
- The output file is always `<stem>_encoded.mp4`, whatever the input's
  extension.
- A failed version probe inside `encode_video` makes that one file fail.
  Only the startup check exits the process, with status 1.
- The path joins the processing set only after the stability wait. The
  de-duplication therefore covers the encode phase and not the wait
  (`Dispatcher.EventDuringWaitNotDeduplicated`).
- The ETA text starts four characters after the start of "ETA", that is
  after "ETA" and one more character.
- Extension entries are stripped but not lower-cased. Only the path's
  suffix is lower-cased, so an entry with an upper-case letter never
  matches.
- When the encoder exits non-zero and the output file exists but cannot
  be unlinked, the unguarded `unlink()` raises. The outer handler then
  runs (verdict `Crashed`); the Boolean result is False either way.

## Model

| member | source | states |
|---|---|---|
| Text.Find | handbrake_watcher.py:259-260 | `str.find`: -1 when the pattern never occurs at or after the start, otherwise the first occurrence at or after the start |
| Text.FindFromStart | handbrake_watcher.py:256 | `pat in s` holds exactly when `s.find(pat)` is not -1 |
| Text.RFind | handbrake_watcher.py:150 | the last index holding the character, or -1; no later index holds it |
| Text.Strip | handbrake_watcher.py:262 | the result is a contiguous slice of the input, preceded only by whitespace and followed only by whitespace, with no whitespace at either end; it is empty exactly when the input is all whitespace |
| Text.StripIdempotent | handbrake_watcher.py:79 | stripping twice is stripping once |
| Text.Lower | handbrake_watcher.py:150 | same length, each character lower-cased, and no upper-case ASCII letter left |
| Text.Split | handbrake_watcher.py:79 | at least one part, no part contains the separator, and joining the parts with the separator gives the input back |
| Text.SplitJoin | handbrake_watcher.py:79 | splitting a join of separator-free parts gives exactly those parts back |
| Paths.Name | handbrake_watcher.py:210 | the name is a slash-free tail of the path, preceded by a slash when shorter than the path |
| Paths.NameOfJoin | handbrake_watcher.py:209-210 | the name of `dir / name` is `name` for any slash-free name |
| Paths.Suffix | handbrake_watcher.py:150 | empty exactly when the last dot is missing, first or last; otherwise a tail of the name starting at its only dot, at least two characters long |
| Paths.Stem | handbrake_watcher.py:209 | stem followed by suffix is the name |
| Paths.SuffixOfDottedTail | handbrake_watcher.py:209 | appending `.ext` (dot-free, non-empty) to a non-empty head gives suffix `.ext` and stem head |
| Paths.StemNoSlash | handbrake_watcher.py:209 | the stem of a slash-free name is slash-free |
| Settings.ParseExtensions | handbrake_watcher.py:79 | every parsed entry is stripped and comma-free, and the set is never empty |
| Settings.ParseJoin | handbrake_watcher.py:79 | a list written from comma-free entries, spaced in any way, parses to exactly the set of those entries stripped. Every list is such a join of its comma-separated parts |
| Settings.DefaultExtensionsParsed | handbrake_watcher.py:42 | the default list denotes the ten documented extensions |
| Settings.UpperCaseEntryNeverMatches | handbrake_watcher.py:79 | an entry containing an upper-case letter never equals a path's lower-cased suffix |
| Stability.RunMeaning | handbrake_watcher.py:186-202 | after any polls, `previous_size` is the last size read (0 if none), and the count is at least j exactly when the last j polls all read that same positive size recorded before them |
| Stability.CountReachesDuration | handbrake_watcher.py:189 | the loop condition fails exactly when the polls so far are `Stable` |
| Stability.FirstStableFrom | handbrake_watcher.py:186-202 | the least number of polls, from k on, after which the wait is over, or None when no prefix is stable |
| Stability.WaitForFileStable | handbrake_watcher.py:176-202 | the loop exits after the first stable prefix and never earlier, with the count equal to the duration. For a positive duration it needs at least duration+1 polls. For a non-positive duration it takes no poll. It agrees with `FirstStable` |
| Stability.NeedsEarlierRead | handbrake_watcher.py:186-193 | since `previous_size` starts at 0, a positive duration needs duration+1 polls |
| Stability.EmptyFileNeverStable | handbrake_watcher.py:192 | a file whose every read is 0 or an error never stabilises |
| Stability.CountWithinDuration | handbrake_watcher.py:189-196 | the count never exceeds the duration while the loop runs or when it exits |
| Stability.SettledWindowHasNoReset | handbrake_watcher.py:192-202 | no poll inside the final settled window clears the count |
| Stability.ResetDelaysExit | handbrake_watcher.py:194-202 | after a poll that clears the count (error, changed size, or 0), the wait needs at least `duration` more polls |
| Progress.PercentSpan | handbrake_watcher.py:259-261 | when found, the text runs from just after the first comma to the first '%' after it; None exactly when no '%' follows any comma |
| Progress.EtaSpan | handbrake_watcher.py:271-274 | when found, it starts four characters after the first "ETA" and ends at the first ')' after that start, which lies strictly after it; None exactly when "ETA" is absent or no such ')' exists |
| Progress.EtaOfLine | handbrake_watcher.py:270-275 | for a line whose first "ETA" is followed by one character, a ')'-free text and a ')', the ETA shown is that text stripped, or "calculating..." when the text is empty |
| Progress.ReadingOfLine | handbrake_watcher.py:256-263 | for an "Encoding:" line whose first comma is followed by a '%'-free text and a '%', the reading is `float` of that text stripped |
| Progress.Feed | handbrake_watcher.py:253-289 | the loop aborts exactly on a too-large reading. The display is refreshed exactly when the whole part exceeds the remembered one, and the new whole part is then remembered; otherwise the state is unchanged, unparsable text included. A stripped line is logged exactly when it is a diagnostic line |
| Progress.FeedKeepsValid | handbrake_watcher.py:266-267 | one iteration keeps the displayed whole parts strictly rising and ending at the remembered one |
| Progress.FeedAll | handbrake_watcher.py:252-253 | from `last_progress = -1`, the state stays valid and there is at most one refresh and one log entry per line |
| Progress.OverflowMeaning | handbrake_watcher.py:263-285 | the loop aborts exactly when some progress line reads as too large |
| Progress.ThrottleMeaning | handbrake_watcher.py:252-267 | the remembered whole part is the maximum read (or -1), and the refreshes are exactly the record highs of the whole parts read |
| Progress.LastWholeMeaning | handbrake_watcher.py:266-267 | the remembered whole part is the maximum of -1 and the whole parts read |
| Progress.ShownMeaning | handbrake_watcher.py:266-267 | the displayed whole parts are the record highs of the whole parts read |
| Progress.MaxFrom | handbrake_watcher.py:266 | an upper bound of the floor and the values, equal to one of them |
| Progress.TaskLineText | handbrake_watcher.py:256-262 | the percent text of "Encoding: task 1 of 1, <text> %" is `<text>` |
| Progress.SameWholeRefreshesOnce | handbrake_watcher.py:266-267 | two progress lines with the same whole part refresh the display once |
| Progress.TenThenTenPointFour | handbrake_watcher.py:266-267 | "10.0 %" then "10.4 %" refreshes the display once |
| Encoder.OutputName | handbrake_watcher.py:209 | the output file name is slash-free |
| Encoder.EncodedSuffix | handbrake_watcher.py:209 | for any stem, `<stem>_encoded.mp4` has suffix ".mp4" and stem `<stem>_encoded` |
| Encoder.MakeJob | handbrake_watcher.py:232-237 | the command is `HandBrakeCLI --input <input> --output <output> --preset <preset>` |
| Encoder.JobPaths | handbrake_watcher.py:209-210 | the output is `<output dir>/<stem>_encoded.mp4` (suffix ".mp4") and the done path is `<done dir>/<name>` |
| Encoder.Finish | handbrake_watcher.py:291-342 | after the launch: returns True exactly on a zero exit without an exception. The input is renamed exactly when it still exists and the rename succeeds, and the output is deleted only on a False result |
| Encoder.EncodeVideo | handbrake_watcher.py:206-342 | True exactly when the probe succeeded, the input existed, nothing raised (no too-large reading) and the exit status was 0. A rename happens only on True. The output is deleted only on False after both checks passed. A missing input after a zero exit still gives True, and so does a failed rename |
| Encoder.RenameAndCleanupExclusive | handbrake_watcher.py:293-342 | no call both moves the input and deletes the output; a True result never deletes the output |
| Dispatcher.ProcessFile | handbrake_watcher.py:145-174 | a non-video path is ignored, then a path in the set, then a missing path. Otherwise the wait runs against the unchanged set, without the path, and `encode_video` is called once with the path added to the set. The set afterwards always equals the set before |
| Dispatcher.Settle | handbrake_watcher.py:163-174 | the path is in the set exactly during the encode and removed afterwards; a wait that never ends never encodes |
| Dispatcher.DuplicateWhileEncodingIgnored | handbrake_watcher.py:153-155 | an event for a path that is being encoded is dropped |
| Dispatcher.EventDuringWaitNotDeduplicated | handbrake_watcher.py:153-166 | the processing set seen during the stability wait lacks the path, so an event for the same path handled against that set is processed in full and encodes again |
| Dispatcher.HandleEvent | handbrake_watcher.py:135-143 | directory events are ignored; a creation uses the source path, a move the destination path; the set is unchanged |
| Dispatcher.CreateUsesSource | handbrake_watcher.py:135-138 | a created file is processed under the path it was created at |
| Dispatcher.MoveUsesDestination | handbrake_watcher.py:140-143 | a moved file is processed under its new name |
| Dispatcher.SelectMembers | handbrake_watcher.py:437-439 | the filter keeps exactly the paths of the accepted entries |
| Dispatcher.ExistingVideosMembers | handbrake_watcher.py:437-439 | the startup queue holds exactly the regular files with a recognised extension |
| Dispatcher.ExistingVideosCons | handbrake_watcher.py:437-439 | the queue keeps directory order |
| Dispatcher.ProcessAll | handbrake_watcher.py:450-452 | each queued file is processed with the same, empty, processing set, in order |
| Dispatcher.StartWatcher | handbrake_watcher.py:425-452 | exit status 1 exactly when HandBrakeCLI is missing. Otherwise the preset check runs and the queue is the scan's result. Every queued file passes the extension and set checks |
| Dispatcher.FilterByExtension | handbrake_watcher.py:438 | `<dir>/<stem>.<ext>` passes the filter exactly when ".<ext>", lower-cased, is configured |
| Dispatcher.UpperCaseSuffixIsVideo | handbrake_watcher.py:150 | with the defaults, a file ending in ".MKV" counts as a video |
| Dispatcher.StartupQueuesOnlyVideos | handbrake_watcher.py:437-452 | with the defaults, a `.mkv` file is queued and a `.txt` file beside it is not |
| Presets.GeneralScan | handbrake_watcher.py:381-392 | at most ten lines are listed, none empty or ending in '/' |
| Presets.CheckPresetAvailability | handbrake_watcher.py:361-396 | found exactly when some stripped line equals the preset. Nothing is listed when it is found or when the command failed. At most ten lines are listed |
| Presets.AfterHeader | handbrake_watcher.py:385-387 | empty when no line is "General/"; otherwise a proper tail of the lines, preceded by a "General/" line with no "General/" line before it |
| Presets.UntilNextHeader | handbrake_watcher.py:388-389 | the longest prefix without a header other than "General/" |
| Presets.Listable | handbrake_watcher.py:390 | the non-empty lines other than "General/" |
| Presets.ScanInSection | handbrake_watcher.py:383-392 | inside the section, the scan lists the first listable lines before the next header, up to the remaining budget |
| Presets.ScanBeforeSection | handbrake_watcher.py:383-389 | before the first "General/" nothing is listed and no header stops the scan |
| Presets.ListedEntries | handbrake_watcher.py:378-393 | when the preset is missing, the listed lines are the first ten listable lines between the first "General/" and the next header |

## Left out

- The watchdog `Observer`, event delivery threads, and the `while True` /
  `KeyboardInterrupt` loop are left out: they are I/O and threading. Events
  are given to `HandleEvent` one at a time.
- `time.sleep` and the check interval are left out, and so is the wait's
  unbounded blocking. The wait consumes a given sequence of polls, and
  running out of polls is reported as `StillWaiting`.
- `subprocess.run`, `Popen` and streaming are left out: the child's output
  and exit status are `Env` fields.
- `float()` parsing is abstracted as the `FloatReader` parameter.
- The progress bar arithmetic, `print` banners and logging are left out.
  Only the content of each display refresh (whole part, percent text, ETA)
  and each debug-log line is kept.
- Encoder.Finish: when an exception from the launch or the output loop
  ends the encode, the refreshes already displayed are not carried into
  the report (`shown` and `logged` are empty). A `Crashed` report caused
  by a failed unlink after a non-zero exit keeps them.
- Encoder.Finish: one flag, `Env.unlinkOk`, stands for both unlink
  attempts (lines 326 and 337). A first unlink that raises followed by a
  retry in the outer handler that succeeds is therefore not modelled.
- Progress.Feed: a finite percent whose drawing raises is `TooLarge`
  whenever it is read, while the code raises only when it would refresh
  the bar. The two agree as long as every earlier reading could be drawn,
  because each threshold only grows with the percent. The memory limit
  behind `MemoryError` depends on the machine and is not modelled.
- Progress.OverflowMeaning: the abort condition inherits the reading of
  `TooLarge` described for Progress.Feed.
- Encoder.EncodeVideo: the `Crashed` verdict from a too-large percent
  inherits the reading of `TooLarge` described for Progress.Feed.
- Settings.ParseExtensions: its own contract gives the shape of every
  entry (stripped, comma-free) and not which entries appear; the exact set
  is stated by Settings.ParseJoin.
- Config loading via `configparser`, `int()` of settings, relative
  directory resolution, and the log level are left out. Directories are
  given as canonical strings. The stabilisation time is any integer.
- `Path.resolve()` is left out. Symbolic links and the file system are not
  visible, so paths are taken as already canonical.
- `mkdir` calls are left out, including the done directory's `mkdir`. A
  failure there raises inside the rename's `try`, and it is part of
  `renameOk`.
- Text.Lower: lower-cases ASCII letters only, not all of Unicode.
- Paths.Suffix: follows the suffix rule of CPython up to 3.13: the last
  dot must be neither the first nor the last character of the name.
- Exceptions other than the modelled ones are one flag each:
  - An exception from the version probe other than the two caught types
    is `World.escapes`, and so is one from the `exists()` at line 226.
    Both propagate to the handler in `process_file`.
  - An exception during the launch or the output loop is `Env.raises`,
    and so is one from the `exists()` at line 298. These reach
    `encode_video`'s outer handler.
  - The `exists()` at line 158 runs outside any handler; an exception
    there is not modelled, and the check is a plain Boolean.
