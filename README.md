# Flasher upload and serial tail, modelled in Dafny

`flasher` is a command-line tool that uploads a firmware binary to a
development board over a serial port and can then show the board's serial
output ("tail"). This project models its core decisions.

- **Port discovery** (`PortDiscovery`, ports.dfy). The port snapshots are
  sets of device names. The model covers the sorted key list (`toKeys`),
  the set differences between two snapshots (`diffPortMaps`) and the
  polling loop that returns the first port to appear (`discoverPort`).
  Each poll of the serial-port enumerator is modelled as one element of a
  sequence of snapshots. The length of that sequence is the poll budget
  that the ten-second clock allows.
- **Upload** (`Uploading`, uploading.dfy). The model covers:
  - the platform-specific override of `cmd`;
  - the choice of port around the 1200-baud touch, with the `"No port"`
    error;
  - the six derived properties written before the upload pattern is
    resolved.

  The Go library functions these need are modelled in `GoPath`
  (gopath.dfy: `path.Base`, `path.Ext`, `path.Dir`, `path.Clean`,
  `filepath.Join`) and `GoStrings` (gostrings.dfy: string order,
  `sort.Strings`, `strings.Replace` with an empty replacement).
- **Serial tail** (`SerialTail`, serialtail.dfy). The model covers:
  - the reader task, which reads into a 256-byte buffer, signals data and
    echoes each chunk with carriage returns removed;
  - the supervisor, which ends a session when the reader exits or when no
    data has arrived for longer than the inactivity window;
  - the outer loop, which rediscovers a port that has vanished and reopens
    the port when asked to.

  The two goroutines and their channel are modelled as the sequence of
  messages the supervisor receives. Each message carries the clock reading
  at which it is handled, in nanoseconds.
- **Entry point** (`Flasher`, flasher.dfy). The model covers the usage check
  (exit status 2), the missing-binary check and the ordered search for the
  tools directory.

## Model

| member | source | states |
|---|---|---|
| GoStrings.LessEqTotal | uploading.go:41 | the code-point order, equal to `sort.Strings`'s byte order on valid UTF-8, is total |
| GoStrings.LessEqTransitive | uploading.go:41 | the order is transitive |
| GoStrings.LessEqAntisymmetric | uploading.go:41 | the order is antisymmetric, so sorted distinct keys are unique |
| GoStrings.Insert | uploading.go:41 | inserting into a sorted list keeps it sorted and adds exactly the new element |
| GoStrings.SortStrings | uploading.go:41 | the result is sorted and is a permutation of the input |
| GoStrings.SortedDistinctIsStrict | uploading.go:41 | a sorted list without repeats is strictly increasing |
| GoStrings.StrictlySortedUnique | uploading.go:41 | two strictly sorted lists with the same elements are equal, so the key order does not depend on map order |
| GoStrings.RemoveAll | uploading.go:148 | deleting occurrences never lengthens the text |
| GoStrings.RemoveAllNoMatch | uploading.go:148 | text in which the pattern occurs nowhere comes back unchanged |
| GoStrings.RemoveAllUnmatchedPrefix | uploading.go:148 | text in which no occurrence of the pattern starts is kept as it is, and deletion continues after it |
| GoStrings.RemoveAllUnmatchedFront | uploading.go:148 | the first `n` elements are kept when no occurrence starts among them |
| GoStrings.NoMatchBeforeOf | uploading.go:148 | no occurrence among the first `n` positions, said position by position |
| GoStrings.RemoveAllPlainPrefix | uploading.go:148 | text none of whose elements can start the pattern is kept as it is, and deletion continues after it |
| GoStrings.RemoveAllAfterPlainPrefix | uploading.go:148 | text before the first possible match is kept, then deletion continues after the match |
| GoStrings.RemoveAllDoubled | uploading.go:148 | a doubled suffix is deleted twice, not once |
| GoStrings.NoMatchExtended | uploading.go:148 | text appended after a longer-than-pattern tail adds no occurrence starting in the prefix |
| GoStrings.RemoveAllUnmatchedDoubled | uploading.go:148 | both copies of a doubled pattern are deleted after text in which no occurrence starts |
| GoStrings.RemoveAllSingle | flasher.go:119 | deleting a one-byte pattern is the same as filtering out that byte |
| GoStrings.WithoutOmits | flasher.go:119 | after filtering, the byte no longer occurs |
| GoStrings.WithoutCounts | flasher.go:119 | filtering keeps every other byte value as often as it occurred |
| GoStrings.WithoutLength | flasher.go:119 | the length drops by the number of occurrences removed |
| GoStrings.WithoutIdempotent | flasher.go:119 | filtering twice is filtering once |
| GoPath.LastSlash | uploading.go:146-147 | the index is that of the last slash, or -1 when there is none |
| GoPath.TrimTrailingSlashes | uploading.go:146 | the result is a prefix with no trailing slash; only slashes were cut |
| GoPath.Base | uploading.go:146 | the result is never empty; it is `/` or contains no slash; a plain name is its own base |
| GoPath.Ext | uploading.go:148 | the result is empty, or a suffix that starts with its only dot and has no slash |
| GoPath.SplitSlash | uploading.go:147 | splitting at slashes gives at least one piece, and no piece contains a slash |
| GoPath.CleanElements | uploading.go:147 | the cleaned elements contain no empty or `.` element, and a rooted path keeps no `..` |
| GoPath.Clean | uploading.go:147 | the cleaned path is never empty, and a rooted path stays rooted |
| GoPath.Dir | uploading.go:147 | the directory is never empty, and is `.` for a path without a slash |
| GoPath.Join | flasher.go:45-46 | joining gives the empty path exactly when both parts are empty |
| GoPath.BaseOfChild | uploading.go:146 | the base of `dir/name` is `name` |
| GoPath.LastSlashAfter | uploading.go:146-147 | the last slash is the one that ends the prefix when the rest has none |
| GoPath.ExtOfSuffix | uploading.go:148 | the extension of `stem.e` is `.e` |
| GoPath.SplitSlashOfDir | uploading.go:147 | `name/` splits into `name` and an empty piece |
| GoPath.SplitSlashTrailing | uploading.go:147 | a trailing slash adds exactly one empty piece |
| GoPath.CleanElementsTrailingEmpty | uploading.go:147 | a trailing empty element changes nothing in the cleaning walk |
| GoPath.CleanTrailingSlash | uploading.go:147 | cleaning ignores a trailing slash on a non-empty path |
| GoPath.DirOfPath | uploading.go:147 | the directory of `d/name` is `d` cleaned, for any non-empty `d` and slash-free `name` |
| GoPath.DirOfChild | uploading.go:147 | the directory of `dir/name` is `dir` for a plain directory name |
| PortDiscovery.ToKeys | uploading.go:36-43 | the keys are exactly the snapshot's ports, once each, in sorted order |
| PortDiscovery.DiffPortMaps | uploading.go:45-62 | `added` holds exactly the ports of `after` not in `before`, and `removed` the reverse, each once |
| PortDiscovery.Missing | uploading.go:49-53 | one loop of `diffPortMaps`: exactly the ports of one snapshot missing from the other |
| PortDiscovery.FirstArrivalFrom | uploading.go:69-87 | the first poll at or after `k` where a new port appears, or none when no later poll adds one |
| PortDiscovery.Discovers | uploading.go:69-89 | a non-empty result is a port that some poll reports, and when no poll grows its snapshot `""` is the only result |
| PortDiscovery.DiscoverPort | uploading.go:64-90 | returns a port new at the first poll that adds any port, or `""` when no poll within the budget adds one |
| PortDiscovery.DiscoveredPortIsNew | uploading.go:76-78 | a found port is in some poll, was absent from the poll before it, and no earlier poll added anything |
| PortDiscovery.EmptyMeansTimeout | uploading.go:82-89 | when no snapshot names `""`, an empty result means no poll added a port |
| PortDiscovery.ArrivalIsNotMissed | uploading.go:69-78 | a port that appears at poll `k` stops the loop at `k` or earlier |
| PortDiscovery.ReturningPortIsDiscovered | uploading.go:64-90 | a device that disappears during the reset and then comes back is found when it comes back |
| Uploading.KeysDistinct | uploading.go:98-148 | the property keys written by `Upload` are pairwise distinct and distinct from the keys they are read from |
| Uploading.TouchRequested | uploading.go:107-117 | the touch needs a supplied port and the board's `upload.use_1200bps_touch`, and never happens with `SkipTouch` |
| Uploading.SelectCommand | uploading.go:98-105 | a non-empty `cmd.<os>` replaces `cmd`; otherwise `cmd` and every other key are unchanged |
| Uploading.ChoosePort | uploading.go:107-139 | with no port given, the discovered one is used and none is the `No port` error; with a port and the touch requested, a port found after the touch is used, otherwise the given port is kept |
| Uploading.InjectParamKeys | uploading.go:143-145 | the verbose and verify keys hold their parameters and the tools key holds the tools path; every other key is unchanged |
| Uploading.InjectPathKeys | uploading.go:146-148 | the port-file, build-path and project-name keys hold the given values; every other key is unchanged |
| Uploading.InjectDerivedKeys | uploading.go:143-148 | the six derived keys hold the verbose and verify parameters, the tools path, the port's file name, the binary's directory and its project name; every other key is unchanged |
| Uploading.Upload | uploading.go:92-150 | the error happens exactly when no port is given and none is discovered; otherwise the plan carries the chosen port, the selected command, the six derived keys, every other merged key unchanged, and the tool's pattern key |
| Uploading.ProjectNameWithoutExtension | uploading.go:148 | a binary without an extension keeps its whole base as project name |
| Uploading.ProjectName | uploading.go:148 | the project name is never longer than the binary's base name |
| Uploading.PortFileExample | uploading.go:146 | `/dev/ttyACM0` gives the port file `ttyACM0` |
| Uploading.BuildPathExample | uploading.go:147 | `build/fw.bin` gives the build path `build` |
| Uploading.ExtOfFile | uploading.go:148 | the extension of `dir/base.ext` is `.ext` |
| Uploading.ProjectNameIsStem | uploading.go:148 | the project name of `dir/stem.ext` is `stem` whenever no occurrence of `.ext` starts inside `stem`; dots in the stem are kept |
| Uploading.DottedProjectName | uploading.go:148 | `build/fk-1.2.bin` gives the project name `fk-1.2` |
| Uploading.ExtensionRemovedEverywhere | uploading.go:148 | the extension is deleted wherever it occurs in the base name: `dir/stem.ext.ext` gives `stem` whenever no occurrence of `.ext` starts inside `stem` |
| SerialTail.StripCR | flasher.go:119 | the sanitised chunk is the chunk with every carriage return filtered out: none is left, and the length drops by their number |
| SerialTail.StripCRIdempotent | flasher.go:119 | sanitising twice is sanitising once |
| SerialTail.StripCRKeepsOtherBytes | flasher.go:119 | every other byte value is kept as often as it occurred |
| SerialTail.Served | flasher.go:106-114 | the number of leading reads that returned data; the read after them stops the loop |
| SerialTail.ReaderTrace | flasher.go:106-132 | the reader's messages have odd length and end with the exited message, which comes first exactly when the first read stops the loop |
| SerialTail.ReaderTraceStep | flasher.go:106-128 | each good read contributes a data message and then its sanitised echo |
| SerialTail.ReadInto | flasher.go:104-107 | a read fills the front of the reused buffer and leaves the rest |
| SerialTail.EchoSerial | flasher.go:91-133 | the reader's messages and echoes are exactly `ReaderTrace` of the reads it meets |
| SerialTail.ReaderTraceAt | flasher.go:106-128 | the good read `k` gives the data message at position `2k` and its sanitised echo right after it |
| SerialTail.ReaderTraceLength | flasher.go:106-133 | the reader sends two events per good read and then one last exited message |
| SerialTail.ExitedOnlyLast | flasher.go:130-132 | the exited message is sent only at the end |
| SerialTail.EchoFollowsData | flasher.go:115-126 | every echo directly follows a data message and contains no carriage return |
| SerialTail.Supervise | flasher.go:227-246 | a session handles at most the messages it receives, and an ended session has handled at least one |
| SerialTail.RunSession | flasher.go:225-246 | the supervisor loop ends, or keeps waiting, exactly as `Supervise` says |
| SerialTail.DataResetsClock | flasher.go:229-231 | a data message moves the last activity to its own time and never ends the session for inactivity |
| SerialTail.TickKeepsClock | flasher.go:227-245 | a heartbeat that does not time out leaves the last activity unchanged |
| SerialTail.ExitedEndsSession | flasher.go:232-235 | the reader's exit ends the session at once, before inactivity is looked at |
| SerialTail.NoWindowNoInactivity | flasher.go:237 | with a window of zero or less, only the reader's exit ends a session |
| SerialTail.EndsByFirstExit | flasher.go:232-235 | a session has ended by the time the first exited message is handled |
| SerialTail.InactiveMeansSilence | flasher.go:237-244 | an inactivity end comes with the window on, on a message with neither flag, with the last activity strictly older than the window |
| SerialTail.SilenceEndsSession | flasher.go:237-244 | a heartbeat handled more than the window after the last activity ends the session for inactivity |
| SerialTail.TimedOut | flasher.go:237-240 | no window means no timeout, and a timeout means more than a second of silence |
| SerialTail.TimedOutLater | flasher.go:237-240 | once the window has passed it stays passed as the clock moves on |
| SerialTail.TimedOutBoundary | flasher.go:237-240 | silence of exactly the window does not time out, one nanosecond more does |
| SerialTail.TailRun | flasher.go:200-251 | a tail runs no more sessions than it has attempts |
| SerialTail.Tail | flasher.go:197-252 | the outer loop rediscovers a vanished or empty port, fails when none is found or the port does not open, and stops or reopens exactly as `TailRun` says |
| SerialTail.OneSessionWithoutReopen | flasher.go:248-250 | with reopening off, at most one session runs, and a stopped tail ran exactly one |
| SerialTail.StopsOnlyWithoutReopen | flasher.go:248-250 | with reopening on, the loop never stops of its own accord |
| Flasher.Start | flasher.go:154-163 | usage exit with status 2 exactly when neither a binary nor the tail is asked for; a missing binary is fatal; otherwise upload exactly when a binary is given and tail exactly when asked |
| Flasher.Candidates | flasher.go:44-48 | three candidate tool directories, the last being `./tools` |
| Flasher.SearchForTools | flasher.go:30-57 | an explicit tools path is returned unchanged; otherwise the first existing candidate in order, or none when no candidate exists |

## Left out

- The property-map component (`NewPropertiesMapFromFile`, `ToSubtree`, `Merge`, `Lookup`, `ToBool`) is not part of this model. `Upload` takes the merged map, the tool name and the touch flag as parameters.
- `Uploading.Upload`: the pattern line is identified by its key (`tools.<tool>.upload.pattern`) rather than expanded, because placeholder expansion belongs to `Lookup`.
- Running the upload command (`ExecuteAndPipeCommandLine`) is not part of this model, so its error result is not modelled.
- `getPortsMap`/the serial enumerator, `serial.Open`/`SetDTR`/`SetRTS` for the touch, port reads, stdout and log-file writes, and all logging are I/O. Snapshots, read results and whether the port opens are inputs; log lines are dropped.
- `time.Now`, `time.Sleep` and the ten-second discovery deadline become the length of the poll sequence. `PortDiscovery.DiscoverPort` therefore requires at least one poll, since the Go loop polls once before it looks at the clock.
- `SerialTail.RunSession`: a data message and the inactivity check after it read the clock twice in Go; the model uses the one reading carried by the message.
- The goroutines, the channel and the leaked heartbeat goroutine are not modelled. After an inactivity close, the reader's final exited message goes to a channel nobody reads; this is not modelled either.
- `SerialTail.EchoSerial`: a sequence of read results that runs out is treated as a failed read.
- `log.Fatal` paths end the program. The following are modelled as terminal outcomes: the missing binary, no port to tail, and a port that will not open.
- Not modelled: the `log.Fatal` in the touch's `serial.Open`; the failures to open the boards, platform or log files; `getPortsMap`'s `log.Fatal` when the ports cannot be enumerated (uploading.go:25-28), which can end the program in the middle of `discoverPort`; the fatal exits after `os.Executable` and `filepath.Abs` in `searchForTools` (flasher.go:35-42); and the fatal exit after `filepath.EvalSymlinks` (flasher.go:180-183).
- The `panic` of `searchForTools` becomes `None`.
- `os.Executable`, `filepath.Abs` and `os.Stat` are inputs. `present(p)` stands for a stat that does not report "not exist".
- Flag parsing and its defaults are not modelled. `Flasher.Configuration` holds the parsed values.
- `pd.discover` in the tail loop is not part of this model. What it returns is an input of each attempt.
- A port that will not open ends the program, through the `log.Fatalf` in `openSerial` (flasher.go:65). The model does not retry; `SerialTail.Tail` ends with `OpenFailed`.
- Strings are sequences of Unicode scalar values, while Go strings are byte sequences. The two orders agree for valid UTF-8. A device or file name that is not valid UTF-8 has no counterpart in the model.
- `SerialTail.TimedOut`: the window is computed exactly. flasher.go:238 computes `time.Duration(-config.TailInactivity) * time.Second` in 64-bit arithmetic. That product wraps for `TailInactivity` above 9 223 372 036, and the model does not follow the wrap.
- How `main` calls `Upload` (flasher.go:185-194) is not modelled.
  - `main` discards the error that `Upload` returns, so the `"No port"` outcome of `Uploading.Upload` does not stop the program.
  - `main` passes `filepath.EvalSymlinks(config.Port)` as the port. Symlink resolution is outside this model. For an empty `-port` it may return `.` rather than `""`, which would bypass the discovery branch of `Upload`.
- `flasher.go:193` passes a `FlashOffset` that the `UploadOptions` type in uploading.go does not declare. The model leaves the offset out of `UploadOptions`.
