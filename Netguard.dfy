// The health state machine of guard.go (package netguard): a plain failure
// counter on the way down, recovery on the first success, and callbacks that
// `AssembleChecker` wires to the configured command strings.  One cycle of
// `Checker.Check` is `Checker.Step`, driven by the probe outcome "did any
// target answer"; the probe, the sleep and the cancellation branch are
// outside the model.

module Netguard {
  import opened Command
  import opened Probes

  /** The status constants of guard.go: DOWN is the zero value. */
  const DOWN: int := 0
  const UP: int := 1

  /** A `func()` field as this package fills it: absent, or the closure built
      by `AssembleChecker` that runs one command string. */
  datatype Callback = Nil | RunCmd(cmd: string)

  /** The configuration fields that the transition reads. */
  datatype Config = Config(threshold: int, postUp: Callback, postDown: Callback)

  /** The mutable part of a checker: `status` and `failCount`. */
  datatype Health = Health(status: int, failCount: int)

  /** The result of one cycle: the new health and the commands its callbacks ran. */
  datatype Outcome = Outcome(health: Health, fired: seq<Fired>)

  /** Calling `cb` on edge `e`, if it is set. */
  function Call(e: Edge, cb: Callback): seq<Fired>
  {
    if cb.RunCmd? then [Fired(e, cb.cmd)] else []
  }

  /** One cycle of the loop in `Checker.Check`. */
  function Next(c: Config, h: Health, ok: bool): Outcome
  {
    if h.status == UP then
      if ok then Outcome(Health(UP, 0), [])
      else if h.failCount + 1 >= c.threshold then
        Outcome(Health(DOWN, h.failCount + 1), Call(WentDown, c.postDown))
      else Outcome(Health(UP, h.failCount + 1), [])
    else if h.status == DOWN then
      if ok then Outcome(Health(UP, 0), Call(WentUp, c.postUp))
      else Outcome(h, [])
    else Outcome(h, [])
  }

  /** The cycles for a sequence of probe outcomes, one after another. */
  function Run(c: Config, h: Health, oks: seq<bool>): Outcome
    decreases |oks|
  {
    if oks == [] then Outcome(h, [])
    else
      var first := Next(c, h, oks[0]);
      var rest := Run(c, first.health, oks[1..]);
      Outcome(rest.health, first.fired + rest.fired)
  }

  /** The number of status changes along a run. */
  function Flips(c: Config, h: Health, oks: seq<bool>): nat
    decreases |oks|
  {
    if oks == [] then 0
    else
      var h' := Next(c, h, oks[0]).health;
      (if h'.status != h.status then 1 else 0) + Flips(c, h', oks[1..])
  }

  /** The health invariant for a threshold of at least one: the counter never
      exceeds the threshold, stays below it while UP, and while DOWN is either
      the zero value's 0 or the threshold reached on the way down. */
  ghost predicate Inv(c: Config, h: Health)
  {
    c.threshold >= 1 &&
    (h.status == UP ==> 0 <= h.failCount < c.threshold) &&
    (h.status == DOWN ==> h.failCount == 0 || h.failCount == c.threshold) &&
    (h.status == UP || h.status == DOWN)
  }

  // ---------------------------------------------------------------------
  // One cycle

  /** While UP, a successful probe clears the counter and calls nothing. */
  lemma UpSuccess(c: Config, n: int)
    ensures Next(c, Health(UP, n), true) == Outcome(Health(UP, 0), [])
  {
  }

  /** While UP, a failed probe counts; reaching the threshold goes DOWN keeping
      the incremented counter and calls `PostDown` once if it is set. */
  lemma UpFailure(c: Config, n: int)
    ensures var o := Next(c, Health(UP, n), false);
      if n + 1 < c.threshold then o == Outcome(Health(UP, n + 1), [])
      else o == Outcome(Health(DOWN, n + 1),
                        if c.postDown.RunCmd? then [Fired(WentDown, c.postDown.cmd)] else [])
  {
  }

  /** While DOWN, a single successful probe goes UP at once and calls
      `PostUp` once if it is set. */
  lemma DownSuccess(c: Config, n: int)
    ensures var o := Next(c, Health(DOWN, n), true);
      o == Outcome(Health(UP, 0), if c.postUp.RunCmd? then [Fired(WentUp, c.postUp.cmd)] else [])
  {
  }

  /** While DOWN, a failed probe changes nothing and calls nothing. */
  lemma DownFailure(c: Config, n: int)
    ensures Next(c, Health(DOWN, n), false) == Outcome(Health(DOWN, n), [])
  {
  }

  /** A callback runs only on an edge, at most once, and it is the one for the
      edge taken. */
  lemma FiresOnlyOnEdges(c: Config, h: Health, ok: bool)
    ensures var o := Next(c, h, ok);
      |o.fired| <= 1 &&
      (o.fired != [] ==> o.health.status != h.status) &&
      (o.fired != [] && o.fired[0].edge == WentDown ==>
         o.health.status == DOWN && c.postDown == RunCmd(o.fired[0].cmd)) &&
      (o.fired != [] && o.fired[0].edge == WentUp ==>
         o.health.status == UP && c.postUp == RunCmd(o.fired[0].cmd))
  {
  }

  /** One cycle keeps the invariant. */
  lemma NextKeepsInv(c: Config, h: Health, ok: bool)
    requires Inv(c, h)
    ensures Inv(c, Next(c, h, ok).health)
  {
  }

  // ---------------------------------------------------------------------
  // Runs of cycles

  /** Runs compose: running `xs` then `ys` is running `xs + ys`. */
  lemma {:induction false} RunAppend(c: Config, h: Health, xs: seq<bool>, ys: seq<bool>)
    ensures var a := Run(c, h, xs); var b := Run(c, a.health, ys);
      Run(c, h, xs + ys) == Outcome(b.health, a.fired + b.fired)
    decreases |xs|
  {
    if xs == [] {
      assert xs + ys == ys;
    } else {
      assert (xs + ys)[0] == xs[0] && (xs + ys)[1..] == xs[1..] + ys;
      RunAppend(c, Next(c, h, xs[0]).health, xs[1..], ys);
    }
  }

  /** Every health reachable from one satisfying the invariant satisfies it. */
  lemma {:induction false} RunKeepsInv(c: Config, h: Health, oks: seq<bool>)
    requires Inv(c, h)
    ensures Inv(c, Run(c, h, oks).health)
    decreases |oks|
  {
    if oks != [] {
      NextKeepsInv(c, h, oks[0]);
      RunKeepsInv(c, Next(c, h, oks[0]).health, oks[1..]);
    }
  }

  /** Whatever the threshold, even zero or negative, a run that starts at UP
      or DOWN only ever reaches UP or DOWN. */
  lemma {:induction false} RunStatusStaysTwoValued(c: Config, h: Health, oks: seq<bool>)
    requires h.status == UP || h.status == DOWN
    ensures Run(c, h, oks).health.status == UP || Run(c, h, oks).health.status == DOWN
    decreases |oks|
  {
    if oks != [] {
      RunStatusStaysTwoValued(c, Next(c, h, oks[0]).health, oks[1..]);
    }
  }

  /** The zero value (DOWN with a clean counter) satisfies the invariant. */
  lemma ZeroValueInv(c: Config)
    requires c.threshold >= 1
    ensures Inv(c, Health(DOWN, 0))
  {
  }

  /** From UP, fewer failures than the threshold allows stay UP ("jitter"),
      counting each failure and calling nothing. */
  lemma {:induction false} JitterStaysUp(c: Config, n: nat, k: nat)
    requires n + k < c.threshold
    ensures Run(c, Health(UP, n), Failures(k)) == Outcome(Health(UP, n + k), [])
    decreases k
  {
    if k > 0 {
      assert Failures(k)[1..] == Failures(k - 1);
      JitterStaysUp(c, n + 1, k - 1);
    }
  }

  /** From a clean UP, exactly `threshold` failures reach DOWN with the counter
      at the threshold, and `PostDown` is called once if it is set. */
  lemma ThresholdFailuresGoDown(c: Config)
    requires c.threshold >= 1
    ensures var o := Run(c, Health(UP, 0), Failures(c.threshold));
      o.health == Health(DOWN, c.threshold) && o.fired == Call(WentDown, c.postDown)
  {
    var t := c.threshold;
    assert Failures(t) == Failures(t - 1) + [false];
    JitterStaysUp(c, 0, t - 1);
    RunAppend(c, Health(UP, 0), Failures(t - 1), [false]);
  }

  /** However many failures arrive while DOWN, nothing changes and nothing is
      called. */
  lemma {:induction false} DownIgnoresFailures(c: Config, n: int, k: nat)
    ensures Run(c, Health(DOWN, n), Failures(k)) == Outcome(Health(DOWN, n), [])
    decreases k
  {
    if k > 0 {
      assert Failures(k)[1..] == Failures(k - 1);
      DownIgnoresFailures(c, n, k - 1);
    }
  }

  /** No recovery window: after any number of failures while DOWN, one success
      is UP with a clean counter, calling `PostUp` once if it is set. */
  lemma OneSuccessRecovers(c: Config, n: int, k: nat)
    ensures Run(c, Health(DOWN, n), Failures(k) + [true]) ==
            Outcome(Health(UP, 0), Call(WentUp, c.postUp))
  {
    DownIgnoresFailures(c, n, k);
    RunAppend(c, Health(DOWN, n), Failures(k), [true]);
  }

  /** With both callbacks set, a run calls exactly one per status change; with
      neither set it calls nothing. */
  lemma {:induction false} OneCallPerEdge(c: Config, h: Health, oks: seq<bool>)
    ensures c.postUp.RunCmd? && c.postDown.RunCmd? ==> |Run(c, h, oks).fired| == Flips(c, h, oks)
    ensures c.postUp == Nil && c.postDown == Nil ==> Run(c, h, oks).fired == []
    decreases |oks|
  {
    if oks != [] {
      FiresOnlyOnEdges(c, h, oks[0]);
      OneCallPerEdge(c, Next(c, h, oks[0]).health, oks[1..]);
    }
  }

  // ---------------------------------------------------------------------
  // Configuration and the checker object

  /** One probe target: the address dialled and the Host header sent. */
  datatype Target = Target(ip: string, host: string)

  /** `CheckerConf`, as decoded from the configuration file; `Timeout` is a
      `time.Duration` in nanoseconds. */
  datatype CheckerConf = CheckerConf(
    Name: string, Targets: seq<Target>, Proxy: string, Threshold: int,
    PostUp: string, PostDown: string, Timeout: int)

  class Checker {
    const Name: string
    const Targets: seq<Target>
    const Proxy: string
    const Threshold: int
    const PostUp: Callback
    const PostDown: Callback
    const Timeout: int
    var status: int
    var failCount: int
    /** The commands the callbacks have run so far, each with its edge. */
    ghost var fired: seq<Fired>

    function Conf(): Config
    {
      Config(Threshold, PostUp, PostDown)
    }

    function State(): Health
      reads this
    {
      Health(status, failCount)
    }

    /** The `Checker{...}` literal: the named fields as given, `status` and
        `failCount` at their zero values. */
    constructor (name: string, targets: seq<Target>, proxy: string, threshold: int,
                 postUp: Callback, postDown: Callback, timeout: int)
      ensures Name == name && Targets == targets && Proxy == proxy && Timeout == timeout
      ensures Conf() == Config(threshold, postUp, postDown)
      ensures State() == Health(DOWN, 0) && fired == []
    {
      Name, Targets, Proxy, Threshold := name, targets, proxy, threshold;
      PostUp, PostDown, Timeout := postUp, postDown, timeout;
      status, failCount := 0, 0;
      fired := [];
    }

    /** `Status()`: the current status, which in every reachable state is UP
        or DOWN. */
    function Status(): (s: int)
      reads this
      ensures Inv(Conf(), State()) ==> s == UP || s == DOWN
    {
      status
    }

    /** One cycle of `Check` after the probe: `ok` is whether any target
        answered.  Returns the program and arguments a callback executed, if any. */
    method Step(ok: bool) returns (exec: Option<Invocation>)
      modifies this
      ensures var o := Next(Conf(), old(State()), ok);
        State() == o.health && fired == old(fired) + o.fired &&
        exec == (if o.fired == [] then None else Some(Tokenize(o.fired[0].cmd)))
      ensures Inv(Conf(), old(State())) ==> Inv(Conf(), State())
    {
      if Inv(Conf(), State()) {
        NextKeepsInv(Conf(), State(), ok);
      }
      exec := None;
      if status == UP {
        if ok {
          failCount := 0;
        } else {
          failCount := failCount + 1;
          if failCount >= Threshold {
            status := DOWN;
            if PostDown != Nil {
              exec := Some(Tokenize(PostDown.cmd));
              fired := fired + [Fired(WentDown, PostDown.cmd)];
            }
          }
        }
      } else if status == DOWN {
        if ok {
          status := UP;
          failCount := 0;
          if PostUp != Nil {
            exec := Some(Tokenize(PostUp.cmd));
            fired := fired + [Fired(WentUp, PostUp.cmd)];
          }
        }
      }
    }

    /** The `for` loop of `Check`, one iteration per probe outcome in `oks`. */
    method Check(oks: seq<bool>)
      modifies this
      ensures var o := Run(Conf(), old(State()), oks);
        State() == o.health && fired == old(fired) + o.fired
      ensures Inv(Conf(), old(State())) ==> Inv(Conf(), State())
    {
      var i := 0;
      while i < |oks|
        invariant 0 <= i <= |oks|
        invariant var o := Run(Conf(), old(State()), oks[..i]);
          State() == o.health && fired == old(fired) + o.fired
      {
        RunAppend(Conf(), old(State()), oks[..i], [oks[i]]);
        assert oks[..i + 1] == oks[..i] + [oks[i]];
        var _ := Step(oks[i]);
        i := i + 1;
      }
      assert oks[..i] == oks;
      if Inv(Conf(), old(State())) {
        RunKeepsInv(Conf(), old(State()), oks);
      }
    }
  }

  /** `AssembleChecker`: copies the configuration and always installs both
      callbacks, each running its configured command string. */
  method AssembleChecker(conf: CheckerConf) returns (c: Checker)
    ensures fresh(c)
    ensures c.Name == conf.Name && c.Targets == conf.Targets && c.Proxy == conf.Proxy
    ensures c.Threshold == conf.Threshold && c.Timeout == conf.Timeout
    ensures c.PostUp == RunCmd(conf.PostUp) && c.PostDown == RunCmd(conf.PostDown)
    ensures c.State() == Health(DOWN, 0) && c.fired == []
  {
    c := new Checker(conf.Name, conf.Targets, conf.Proxy, conf.Threshold,
                     RunCmd(conf.PostUp), RunCmd(conf.PostDown), conf.Timeout);
  }

  /** An assembled checker starts DOWN, so its first successful probe already
      runs the configured up command, even when the target was never seen
      down; an empty command string is still handed to `exec.Command`. */
  lemma AssembledFirstSuccessRunsPostUp(conf: CheckerConf)
    ensures var o := Next(Config(conf.Threshold, RunCmd(conf.PostUp), RunCmd(conf.PostDown)),
                          Health(DOWN, 0), true);
      o.health == Health(UP, 0) && o.fired == [Fired(WentUp, conf.PostUp)]
  {
  }
}
