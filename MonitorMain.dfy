// The health state machine of main.go: saturating and decrementing failure
// counters, one command string per edge.  One cycle of `Checker.Check` is
// `Checker.Step`, driven by the probe outcome "did any target answer"; the
// probe itself, the sleep and the cancellation branch are outside the model.

module MonitorMain {
  import opened Command
  import opened Probes

  /** The status constants of main.go: UP is the zero value. */
  const UP: int := 0
  const DOWN: int := 1

  /** The configuration fields that the transition reads. */
  datatype Config = Config(threshold: int, postUp: string, postDown: string)

  /** The mutable part of a checker: `status` and `failCount`. */
  datatype Health = Health(status: int, failCount: int)

  /** The result of one cycle: the new health and the commands it ran. */
  datatype Outcome = Outcome(health: Health, fired: seq<Fired>)

  /** One cycle of the loop in `Checker.Check`, as written.  On the DOWN->UP
      edge the guard tests `postUp` but the command run is `postDown`. */
  function Next(c: Config, h: Health, ok: bool): Outcome
  {
    if h.status == UP then
      if ok then Outcome(Health(UP, 0), [])
      else if h.failCount + 1 >= c.threshold then
        Outcome(Health(DOWN, c.threshold),
                if c.postDown != "" then [Fired(WentDown, c.postDown)] else [])
      else Outcome(Health(UP, h.failCount + 1), [])
    else if h.status == DOWN then
      if ok then
        if h.failCount - 1 <= 0 then
          Outcome(Health(UP, 0),
                  if c.postUp != "" then [Fired(WentUp, c.postDown)] else [])
        else Outcome(Health(DOWN, h.failCount - 1), [])
      else Outcome(Health(DOWN, c.threshold), [])
    else Outcome(h, [])
  }

  /** The cycles for a sequence of probe outcomes, one after another. */
  function Run(c: Config, h: Health, oks: seq<bool>): Outcome
    decreases |oks|
  {
    if oks == [] then Outcome(h, [])
    else
      var first := Next(c, h, oks[0]);
      var rest := Run(c, first.health, oks[1..]);
      Outcome(rest.health, first.fired + rest.fired)
  }

  /** The number of status changes along a run. */
  function Flips(c: Config, h: Health, oks: seq<bool>): nat
    decreases |oks|
  {
    if oks == [] then 0
    else
      var h' := Next(c, h, oks[0]).health;
      (if h'.status != h.status then 1 else 0) + Flips(c, h', oks[1..])
  }

  /** The health invariant for a threshold of at least one. */
  ghost predicate Inv(c: Config, h: Health)
  {
    c.threshold >= 1 &&
    (h.status == UP ==> 0 <= h.failCount < c.threshold) &&
    (h.status == DOWN ==> 1 <= h.failCount <= c.threshold) &&
    (h.status == UP || h.status == DOWN)
  }

  // ---------------------------------------------------------------------
  // One cycle

  /** While UP, a successful probe clears the counter and runs nothing. */
  lemma UpSuccess(c: Config, n: int)
    ensures Next(c, Health(UP, n), true) == Outcome(Health(UP, 0), [])
  {
  }

  /** While UP, a failed probe counts; reaching the threshold goes DOWN with
      the counter saturated at the threshold and runs `postDown` once if set. */
  lemma UpFailure(c: Config, n: int)
    ensures var o := Next(c, Health(UP, n), false);
      if n + 1 < c.threshold then o == Outcome(Health(UP, n + 1), [])
      else o == Outcome(Health(DOWN, c.threshold),
                        if c.postDown != "" then [Fired(WentDown, c.postDown)] else [])
  {
  }

  /** While DOWN, a successful probe counts down; reaching zero goes UP and,
      when `postUp` is set, runs one command: the string `postDown`. */
  lemma DownSuccess(c: Config, n: int)
    ensures var o := Next(c, Health(DOWN, n), true);
      if n - 1 > 0 then o == Outcome(Health(DOWN, n - 1), [])
      else o == Outcome(Health(UP, 0),
                        if c.postUp != "" then [Fired(WentUp, c.postDown)] else [])
  {
  }

  /** While DOWN, a failed probe resets the counter to the threshold. */
  lemma DownFailure(c: Config, n: int)
    ensures Next(c, Health(DOWN, n), false) == Outcome(Health(DOWN, c.threshold), [])
  {
  }

  /** A command runs only on an edge, at most once, and for the edge taken. */
  lemma FiresOnlyOnEdges(c: Config, h: Health, ok: bool)
    ensures var o := Next(c, h, ok);
      |o.fired| <= 1 &&
      (o.fired != [] ==> o.health.status != h.status) &&
      (o.fired != [] && o.fired[0].edge == WentDown ==> o.health.status == DOWN) &&
      (o.fired != [] && o.fired[0].edge == WentUp ==> o.health.status == UP)
  {
  }

  /** The up edge runs the DOWN command: with distinct non-empty commands the
      string executed on recovery is never `postUp`. */
  lemma UpEdgeRunsPostDown(c: Config, n: int)
    requires c.postUp != "" && c.postDown != c.postUp
    requires n <= 1
    ensures Next(c, Health(DOWN, n), true).fired == [Fired(WentUp, c.postDown)]
    ensures Next(c, Health(DOWN, n), true).fired[0].cmd != c.postUp
  {
  }

  /** The transition as evidently intended: identical except that the up
      edge runs `postUp`. */
  function IntendedNext(c: Config, h: Health, ok: bool): Outcome
  {
    var o := Next(c, h, ok);
    if o.fired != [] && o.fired[0].edge == WentUp then Outcome(o.health, [Fired(WentUp, c.postUp)])
    else o
  }

  /** The intended transition runs `postDown` on the down edge, `postUp` on the
      up edge, each once and only when configured, and agrees with the written
      one on the new health. */
  lemma IntendedEdgesRunTheirCommand(c: Config, h: Health, ok: bool)
    ensures IntendedNext(c, h, ok).health == Next(c, h, ok).health
    ensures var o := IntendedNext(c, h, ok);
      (h.status == UP && o.health.status == DOWN ==>
         o.fired == (if c.postDown != "" then [Fired(WentDown, c.postDown)] else [])) &&
      (h.status == DOWN && o.health.status == UP ==>
         o.fired == (if c.postUp != "" then [Fired(WentUp, c.postUp)] else [])) &&
      (o.health.status == h.status ==> o.fired == [])
  {
  }

  /** Runs of the intended transition. */
  function IntendedRun(c: Config, h: Health, oks: seq<bool>): Outcome
    decreases |oks|
  {
    if oks == [] then Outcome(h, [])
    else
      var first := IntendedNext(c, h, oks[0]);
      var rest := IntendedRun(c, first.health, oks[1..]);
      Outcome(rest.health, first.fired + rest.fired)
  }

  /** Over any run the intended transition reaches the same health as the
      written one, and runs the same number of commands, each for the same
      edge; only the string run on an up edge differs. */
  lemma {:induction false} IntendedRunSameHealth(c: Config, h: Health, oks: seq<bool>)
    ensures IntendedRun(c, h, oks).health == Run(c, h, oks).health
    ensures |IntendedRun(c, h, oks).fired| == |Run(c, h, oks).fired|
    ensures forall i :: 0 <= i < |Run(c, h, oks).fired| ==>
      IntendedRun(c, h, oks).fired[i].edge == Run(c, h, oks).fired[i].edge &&
      (Run(c, h, oks).fired[i].edge == WentDown ==>
         IntendedRun(c, h, oks).fired[i] == Run(c, h, oks).fired[i])
    decreases |oks|
  {
    if oks != [] {
      IntendedRunSameHealth(c, Next(c, h, oks[0]).health, oks[1..]);
    }
  }

  /** One cycle keeps the invariant. */
  lemma NextKeepsInv(c: Config, h: Health, ok: bool)
    requires Inv(c, h)
    ensures Inv(c, Next(c, h, ok).health)
  {
  }

  // ---------------------------------------------------------------------
  // Runs of cycles

  /** Runs compose: running `xs` then `ys` is running `xs + ys`. */
  lemma {:induction false} RunAppend(c: Config, h: Health, xs: seq<bool>, ys: seq<bool>)
    ensures var a := Run(c, h, xs); var b := Run(c, a.health, ys);
      Run(c, h, xs + ys) == Outcome(b.health, a.fired + b.fired)
    decreases |xs|
  {
    if xs == [] {
      assert xs + ys == ys;
    } else {
      assert (xs + ys)[0] == xs[0] && (xs + ys)[1..] == xs[1..] + ys;
      RunAppend(c, Next(c, h, xs[0]).health, xs[1..], ys);
    }
  }

  /** Starting from the zero value, every reachable health satisfies the
      invariant: UP => 0 <= failCount < threshold, DOWN => 1 <= failCount <= threshold. */
  lemma {:induction false} RunKeepsInv(c: Config, h: Health, oks: seq<bool>)
    requires Inv(c, h)
    ensures Inv(c, Run(c, h, oks).health)
    decreases |oks|
  {
    if oks != [] {
      NextKeepsInv(c, h, oks[0]);
      RunKeepsInv(c, Next(c, h, oks[0]).health, oks[1..]);
    }
  }

  /** The zero value of a checker satisfies the invariant. */
  lemma ZeroValueInv(c: Config)
    requires c.threshold >= 1
    ensures Inv(c, Health(UP, 0))
  {
  }

  /** From a clean UP, fewer than `threshold` failures stay UP ("jitter"),
      counting each failure and running nothing. */
  lemma {:induction false} JitterStaysUp(c: Config, n: nat, k: nat)
    requires n + k < c.threshold
    ensures Run(c, Health(UP, n), Failures(k)) == Outcome(Health(UP, n + k), [])
    decreases k
  {
    if k > 0 {
      assert Failures(k)[1..] == Failures(k - 1);
      JitterStaysUp(c, n + 1, k - 1);
    }
  }

  /** From a clean UP, exactly `threshold` failures reach DOWN with the counter
      at the threshold, and `postDown` runs once if it is set. */
  lemma ThresholdFailuresGoDown(c: Config)
    requires c.threshold >= 1
    ensures var o := Run(c, Health(UP, 0), Failures(c.threshold));
      o.health == Health(DOWN, c.threshold) &&
      o.fired == (if c.postDown != "" then [Fired(WentDown, c.postDown)] else [])
  {
    var t := c.threshold;
    assert Failures(t) == Failures(t - 1) + [false];
    JitterStaysUp(c, 0, t - 1);
    RunAppend(c, Health(UP, 0), Failures(t - 1), [false]);
  }

  /** `threshold - 1` failures and then one success leave UP with a clean counter. */
  lemma JitterThenSuccessRecovers(c: Config)
    requires c.threshold >= 1
    ensures Run(c, Health(UP, 0), Failures(c.threshold - 1) + [true]) == Outcome(Health(UP, 0), [])
  {
    JitterStaysUp(c, 0, c.threshold - 1);
    RunAppend(c, Health(UP, 0), Failures(c.threshold - 1), [true]);
  }

  /** While DOWN with `n` left to go, fewer than `n` successes stay DOWN,
      counting down and running nothing. */
  lemma {:induction false} RecoveryWindowStaysDown(c: Config, n: int, k: nat)
    requires k < n
    ensures Run(c, Health(DOWN, n), Successes(k)) == Outcome(Health(DOWN, n - k), [])
    decreases k
  {
    if k > 0 {
      assert Successes(k)[1..] == Successes(k - 1);
      RecoveryWindowStaysDown(c, n - 1, k - 1);
    }
  }

  /** From DOWN at the threshold, exactly `threshold` successes reach UP with a
      clean counter; the recovery runs a command once iff `postUp` is set, and
      that command is `postDown`. */
  lemma ThresholdSuccessesGoUp(c: Config)
    requires c.threshold >= 1
    ensures var o := Run(c, Health(DOWN, c.threshold), Successes(c.threshold));
      o.health == Health(UP, 0) &&
      o.fired == (if c.postUp != "" then [Fired(WentUp, c.postDown)] else [])
  {
    var t := c.threshold;
    assert Successes(t) == Successes(t - 1) + [true];
    RecoveryWindowStaysDown(c, t, t - 1);
    RunAppend(c, Health(DOWN, t), Successes(t - 1), [true]);
  }

  /** A failure anywhere in the recovery window cancels all progress. */
  lemma {:induction false} FailureInWindowResets(c: Config, n: int, k: nat)
    requires k < n
    ensures Run(c, Health(DOWN, n), Successes(k) + [false]) == Outcome(Health(DOWN, c.threshold), [])
  {
    RecoveryWindowStaysDown(c, n, k);
    RunAppend(c, Health(DOWN, n), Successes(k), [false]);
  }

  /** With both commands configured, a run fires exactly one command per
      status change; with neither configured it fires nothing. */
  lemma {:induction false} OneCommandPerEdge(c: Config, h: Health, oks: seq<bool>)
    ensures c.postUp != "" && c.postDown != "" ==> |Run(c, h, oks).fired| == Flips(c, h, oks)
    ensures c.postUp == "" && c.postDown == "" ==> Run(c, h, oks).fired == []
    decreases |oks|
  {
    if oks != [] {
      FiresOnlyOnEdges(c, h, oks[0]);
      OneCommandPerEdge(c, Next(c, h, oks[0]).health, oks[1..]);
    }
  }

  // ---------------------------------------------------------------------
  // The checker object

  class Checker {
    const Name: string
    const Threshold: int
    const PostUp: string
    const PostDown: string
    var status: int
    var failCount: int
    /** The commands run so far, each with the edge it was run for. */
    ghost var fired: seq<Fired>

    function Conf(): Config
    {
      Config(Threshold, PostUp, PostDown)
    }

    function State(): Health
      reads this
    {
      Health(status, failCount)
    }

    /** A checker as decoded from its configuration: `status` and `failCount`
        keep their zero values, so it starts UP with a clean counter. */
    constructor (name: string, threshold: int, postUp: string, postDown: string)
      ensures Name == name && Conf() == Config(threshold, postUp, postDown)
      ensures State() == Health(UP, 0) && fired == []
      ensures threshold >= 1 ==> Inv(Conf(), State())
    {
      Name, Threshold, PostUp, PostDown := name, threshold, postUp, postDown;
      status, failCount := 0, 0;
      fired := [];
    }

    /** One cycle of `Check` after the probe: `ok` is whether any target
        answered.  Returns the program and arguments executed, if any. */
    method Step(ok: bool) returns (exec: Option<Invocation>)
      modifies this
      ensures var o := Next(Conf(), old(State()), ok);
        State() == o.health && fired == old(fired) + o.fired &&
        exec == (if o.fired == [] then None else Some(Tokenize(o.fired[0].cmd)))
      ensures Inv(Conf(), old(State())) ==> Inv(Conf(), State())
    {
      if Inv(Conf(), State()) {
        NextKeepsInv(Conf(), State(), ok);
      }
      exec := None;
      if status == UP {
        if ok {
          failCount := 0;
        } else {
          failCount := failCount + 1;
          if failCount >= Threshold {
            status := DOWN;
            failCount := Threshold;
            if PostDown != "" {
              exec := Some(Tokenize(PostDown));
              fired := fired + [Fired(WentDown, PostDown)];
            }
          }
        }
      } else if status == DOWN {
        if ok {
          failCount := failCount - 1;
          if failCount <= 0 {
            status := UP;
            failCount := 0;
            if PostUp != "" {
              exec := Some(Tokenize(PostDown));
              fired := fired + [Fired(WentUp, PostDown)];
            }
          }
        } else {
          failCount := Threshold;
        }
      }
    }

    /** The `for` loop of `Check`, one iteration per probe outcome in `oks`. */
    method Check(oks: seq<bool>)
      modifies this
      ensures var o := Run(Conf(), old(State()), oks);
        State() == o.health && fired == old(fired) + o.fired
      ensures Inv(Conf(), old(State())) ==> Inv(Conf(), State())
    {
      var i := 0;
      while i < |oks|
        invariant 0 <= i <= |oks|
        invariant var o := Run(Conf(), old(State()), oks[..i]);
          State() == o.health && fired == old(fired) + o.fired
      {
        RunAppend(Conf(), old(State()), oks[..i], [oks[i]]);
        assert oks[..i + 1] == oks[..i] + [oks[i]];
        var _ := Step(oks[i]);
        i := i + 1;
      }
      assert oks[..i] == oks;
      if Inv(Conf(), old(State())) {
        RunKeepsInv(Conf(), old(State()), oks);
      }
    }
  }
}
