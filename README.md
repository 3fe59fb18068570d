# netguard health state machine in Dafny

netguard is a liveness monitor. For each configured checker it probes a group of
HTTP targets in a loop. It applies hysteresis to the outcome "did any target
answer", and on each UP↔DOWN transition it runs an external command. The
repository holds two versions of that checker, and their policies differ.
Both are modelled:

- `MonitorMain.dfy` models `main.go`. The checker starts UP (UP is 0, the zero
  value). While UP it counts failures. On reaching `Threshold` it goes DOWN with
  `failCount` saturated at `Threshold` and runs `PostDown` if set. While DOWN,
  each success counts down and reaching zero goes UP. Any failure while DOWN
  resets the counter to `Threshold`.
- `Netguard.dfy` models `guard.go` (package `netguard`). The checker starts DOWN
  (DOWN is 0, the zero value). While UP it counts failures and goes DOWN on
  reaching `Threshold`, without resetting the counter. While DOWN, one success
  goes UP at once and a failure changes nothing. The edge actions are `func()`
  callbacks, which `AssembleChecker` wires to the configured command strings.
- `Command.dfy` models the tokenisation in `RunExternalCmd`, which is the same
  in both files: `strings.Split(cmd, " ")`, then the first piece as the
  program and the rest as its arguments. It also defines the record of a
  command run on an edge.

Each version has the same structure:

- A pure transition function `Next(config, health, ok)` gives the new
  `status`/`failCount` and the commands run.
- `Run` folds `Next` over a sequence of probe outcomes.
- The class `Checker` holds the fields that the source updates in place.
  `Checker.Step` is one iteration of the loop in `Check`, and its contract ties
  it to `Next`. `Checker.Check` is the loop itself over a finite sequence of
  probe outcomes, tied to `Run`.
- A ghost field `fired` records every command run, with the edge it was run
  for, so that "exactly once per edge" can be stated.
- `Step` returns the `exec.Command` invocation (program and arguments) that it
  hands over, if any.

Go's `int` is modelled as an unbounded integer. For `Threshold ≥ 1`, every
reachable state keeps `failCount` between 0 and `Threshold` (the `Inv` lemmas).
So for `Threshold ≥ 1` the source's `failCount++` and `failCount -= 1` never
wrap.

The two Go files differ in three places, and each module follows its own file:

- `main.go` starts UP, since UP is 0 there (`main.go:59-62`). `guard.go` starts
  DOWN, since DOWN is 0 there (`guard.go:37-40`). So the first successful probe
  of a checker built by `AssembleChecker` runs the up command, even though the
  target was never seen down.
- `main.go:100` skips an empty `PostDown` on the down edge, and `main.go:115`
  skips the up edge only when `PostUp` is empty. With `PostUp` set and
  `PostDown` empty, `main.go:116` therefore hands an empty program to
  `exec.Command` on recovery (`MonitorMain.UpEdgeRunsPostDown` covers this
  input). `guard.go:162-177` always installs both callbacks, so there an empty
  `postUp` or `postDown` always reaches `exec.Command` as an empty program.
- `main.go` counts successes down while DOWN (`main.go:109-114`). `guard.go:89-95`
  recovers on the first success.

The run lemmas (`RunAppend`, `RunKeepsInv`, `JitterStaysUp`) appear in both
modules on purpose. Their text is the same, but each one is about its own
package's transition.

## Model

| member | source | states |
|---|---|---|
| Command.Split | main.go:194 | `strings.Split(s, " ")` yields exactly one more piece than `s` has spaces (so at least one, and `split[0]` always exists), and no piece contains a space |
| Command.JoinSplit | main.go:194 | joining the pieces of any command with single spaces gives back the command |
| Command.SplitJoin | guard.go:181 | splitting a space-joined list of space-free pieces gives back the pieces, empty ones included |
| Command.DoubleSpaceGivesEmptyToken | guard.go:181 | two consecutive spaces produce an empty piece between the tokens |
| Command.Tokenize | main.go:194-195 | the program is the first piece and contains no space, there is one argument per space, and program and arguments joined with spaces give back the command |
| MonitorMain.UpSuccess | main.go:89-93 | while UP, a success sets `failCount` to 0, stays UP and runs nothing |
| MonitorMain.UpFailure | main.go:94-106 | while UP, a failure below the threshold stays UP with the counter incremented and runs nothing; at or above it, the checker goes DOWN with `failCount == Threshold` and runs exactly `[PostDown]` if `PostDown != ""`, nothing otherwise |
| MonitorMain.DownSuccess | main.go:109-119 | while DOWN, a success with counter above 1 stays DOWN, decrements and runs nothing; otherwise it goes UP with counter 0 and runs exactly one command iff `PostUp != ""`, and that command is the string `PostDown` (as written) |
| MonitorMain.DownFailure | main.go:120-121 | while DOWN, a failure resets `failCount` to `Threshold`, stays DOWN and runs nothing |
| MonitorMain.FiresOnlyOnEdges | main.go:96-118 | a cycle runs at most one command, only when the status changes, and labelled with the edge actually taken |
| MonitorMain.UpEdgeRunsPostDown | main.go:115-117 | as written, the DOWN→UP edge with `PostUp` set runs the string `PostDown`, which differs from `PostUp` whenever the two are distinct |
| MonitorMain.IntendedEdgesRunTheirCommand | main.go:100-117 | the corrected transition has the same new health, runs `PostDown` on the down edge and `PostUp` on the up edge (each only if non-empty), and runs nothing without an edge |
| MonitorMain.IntendedRunSameHealth | main.go:108-119 | over any sequence of probe outcomes, the corrected transition reaches the same health as the written one and runs the same number of commands on the same edges; down-edge commands are identical |
| MonitorMain.NextKeepsInv | main.go:87-123 | one cycle preserves: threshold ≥ 1, UP ⇒ 0 ≤ failCount < Threshold, DOWN ⇒ 1 ≤ failCount ≤ Threshold |
| MonitorMain.ZeroValueInv | main.go:59-62 | the zero value (UP, 0) satisfies the invariant when `Threshold ≥ 1` |
| MonitorMain.RunAppend | main.go:80-126 | running cycles for `xs` then `ys` equals running them for `xs + ys`, with the commands concatenated in order |
| MonitorMain.RunKeepsInv | main.go:87-123 | every state reachable by any sequence of probe outcomes keeps the invariant |
| MonitorMain.JitterStaysUp | main.go:95-106 | from UP with counter n, k failures with n + k < Threshold stay UP with counter n + k and run nothing ("jitter") |
| MonitorMain.ThresholdFailuresGoDown | main.go:95-103 | from UP with counter 0, exactly `Threshold` failures reach DOWN with counter `Threshold`, having run `PostDown` once if set and nothing else |
| MonitorMain.JitterThenSuccessRecovers | main.go:89-106 | `Threshold - 1` failures followed by one success leave UP with counter 0 and no command run |
| MonitorMain.RecoveryWindowStaysDown | main.go:109-119 | from DOWN with counter n, fewer than n successes stay DOWN, counting down, with nothing run |
| MonitorMain.ThresholdSuccessesGoUp | main.go:109-118 | from DOWN with counter `Threshold`, exactly `Threshold` successes reach UP with counter 0; one command runs iff `PostUp` is set, and it is `PostDown` |
| MonitorMain.FailureInWindowResets | main.go:120-121 | a failure anywhere inside the recovery window puts the counter back at `Threshold` and runs nothing |
| MonitorMain.OneCommandPerEdge | main.go:96-118 | over any run, with both commands set, the number of commands run equals the number of status changes; with neither set, none runs |
| MonitorMain.Checker.constructor | main.go:28-29 | a decoded checker keeps its configuration and starts at the zero value, UP with `failCount` 0, with no command run |
| MonitorMain.Checker.Step | main.go:87-123 | one loop iteration updates `status`/`failCount` to `Next`'s health, appends the commands run to the history, returns the tokenised invocation, and keeps the invariant |
| MonitorMain.Checker.Check | main.go:80-126 | the loop over a sequence of probe outcomes leaves the state and history that `Run` gives, and keeps the invariant |
| Netguard.UpSuccess | guard.go:71-75 | while UP, a success sets `failCount` to 0, stays UP and calls nothing |
| Netguard.UpFailure | guard.go:76-86 | while UP, a failure below the threshold stays UP with the counter incremented; at or above it, the checker goes DOWN keeping the incremented counter (not saturated) and calls `PostDown` once iff it is non-nil |
| Netguard.DownSuccess | guard.go:89-95 | while DOWN, one success goes UP with counter 0 and calls `PostUp` once iff it is non-nil |
| Netguard.DownFailure | guard.go:88-96 | while DOWN, a failure changes neither `status` nor `failCount` and calls nothing |
| Netguard.FiresOnlyOnEdges | guard.go:78-95 | a cycle calls at most one callback, only when the status changes, and only the callback belonging to the edge taken |
| Netguard.NextKeepsInv | guard.go:69-97 | one cycle preserves: threshold ≥ 1, UP ⇒ 0 ≤ failCount < Threshold, DOWN ⇒ failCount is 0 or `Threshold` (so it never exceeds `Threshold`) |
| Netguard.ZeroValueInv | guard.go:37-40 | the zero value (DOWN, 0) satisfies the invariant when `Threshold ≥ 1` |
| Netguard.RunAppend | guard.go:62-100 | running cycles for `xs` then `ys` equals running them for `xs + ys`, with the calls concatenated in order |
| Netguard.RunKeepsInv | guard.go:69-97 | every state reachable by any sequence of probe outcomes keeps the invariant |
| Netguard.JitterStaysUp | guard.go:76-86 | from UP with counter n, k failures with n + k < Threshold stay UP with counter n + k and call nothing |
| Netguard.ThresholdFailuresGoDown | guard.go:77-83 | from UP with counter 0, exactly `Threshold` failures reach DOWN with counter `Threshold`, having called `PostDown` once if set and nothing else |
| Netguard.DownIgnoresFailures | guard.go:88-96 | any number of failures while DOWN leave the state unchanged and call nothing |
| Netguard.OneSuccessRecovers | guard.go:88-96 | after any number of failures while DOWN, one success reaches UP with counter 0, calling only `PostUp` |
| Netguard.OneCallPerEdge | guard.go:78-95 | over any run, with both callbacks set, the number of calls equals the number of status changes; with neither set, none is called |
| Netguard.Checker.constructor | guard.go:18-30 | the struct literal keeps the given fields, and `status` and `failCount` take their zero values (DOWN, 0) |
| Netguard.RunStatusStaysTwoValued | guard.go:69-97 | for any threshold, including 0, a run that starts at UP or DOWN only ever reaches UP or DOWN |
| Netguard.Checker.Status | guard.go:42-44 | the getter returns the current status, and in every state satisfying the invariant that status is UP or DOWN |
| Netguard.Checker.Step | guard.go:69-97 | one loop iteration updates `status`/`failCount` to `Next`'s health, appends the commands the callbacks ran, returns the tokenised invocation, and keeps the invariant |
| Netguard.Checker.Check | guard.go:62-100 | the loop over a sequence of probe outcomes leaves the state and history that `Run` gives, and keeps the invariant |
| Netguard.AssembleChecker | guard.go:162-177 | copies Name, Targets, Proxy, Threshold and Timeout unchanged, always installs non-nil callbacks running `conf.PostUp` and `conf.PostDown`, and starts DOWN with counter 0 |
| Netguard.AssembledFirstSuccessRunsPostUp | guard.go:162-177 | an assembled checker's first successful probe goes UP and runs the configured up command, even an empty one |

## Findings

| source | as written | input that shows it | evidently intended | confidence | as-written member | corrected member |
|---|---|---|---|---|---|---|
| main.go:116 | on the DOWN→UP edge the guard tests `c.PostUp != ""` but runs `RunExternalCmd(c.PostDown)` | `Threshold` 1, `PostUp` "up.sh", `PostDown` "down.sh": a failure from UP runs "down.sh", and the next success runs "down.sh" again; with `PostDown` "" instead, the recovery hands an empty program to `exec.Command` | run `c.PostUp` on recovery, as the log line "PostUp executed" says | high; not executed | MonitorMain.UpEdgeRunsPostDown | MonitorMain.IntendedEdgesRunTheirCommand |

The class `MonitorMain.Checker` deliberately keeps the behaviour as written, so
that the model reflects what `main.go` does. `MonitorMain.IntendedRunSameHealth`
proves what carries over to the corrected transition. Over any sequence of
probe outcomes it reaches the same `status` and `failCount`, and it runs the
same number of commands on the same edges. Only the string run on the up edge
differs. So the counter and hysteresis statements about health carry over.
The statements about which string runs on recovery (`ThresholdSuccessesGoUp`)
do not.

## Left out

- HTTP probing (`HttpCheck`), proxy URL parsing and `http.Client` setup are network I/O. Each cycle's probe outcome is a boolean input to `Step`.
- The concurrent race over targets (`Checker.HttpCheck` in both files, and `utils.RaceResultWithError`, which is not part of this model) is goroutines, channels, timers and cancellation. Its combined result is the boolean input.
- The `ctx.Done()` branch and `time.Sleep` in the loops are scheduling and cancellation. The loop is modelled over a finite sequence of probe outcomes.
- `exec.Command` execution and log output in `RunExternalCmd` are process spawning and I/O. Only the tokenisation and the choice of command string are modelled.
- `TcpPing` is socket I/O and is never called.
- `main()` in `main.go` and `cli/app.go` is flag parsing, YAML loading, goroutine launch and a pprof server. `vps/light.go` is an unrelated cloud-instance utility.
- Netguard.Callback: only the closures the repository builds are modelled (nil, or the `AssembleChecker` closure running one command string). An arbitrary `func()` is not.
- MonitorMain.Next: Go's fixed-width `int` wrap-around is not modelled. With `Threshold` equal to `math.MinInt`, one failure sets `failCount` to `Threshold` (`main.go:99`). The next success then wraps `failCount -= 1` to `math.MaxInt` (`main.go:110`), so the Go checker stays DOWN, while `Next` goes UP.
- MonitorMain.NextKeepsInv: the invariant is stated for `Threshold ≥ 1` only. With a zero or negative threshold the transition is still modelled by `Next`, but no bound is claimed.
- Netguard.NextKeepsInv: the invariant is stated for `Threshold ≥ 1` only, for the same reason.
- Every `log.Printf`/`log.Println` call is left out, because logging is output only: the check result, "recover", "jitter" and transition lines in `Check` (`main.go:86-117`, `guard.go:68-90`), and the "executed" lines after each command (`main.go:102,117`, `guard.go:170,174`).
