// The analysis program's main loop. Each pass asks the input stream to
// begin its next step: on NotReady it backs off and asks again, on OK it
// counts the step, runs the one-time setup if this is the first step, and
// reads, transforms and writes the step; on any other status it leaves the
// loop. The statuses the stream reports are the input of the model.

module StepLoop {
  import opened Cli
  import opened Layout

  /** What BeginStep reports. Other stands for every status besides NotReady and OK (end of stream, errors). */
  datatype StepStatus = NotReady | OK | Other

  /** What one pass round the loop does, seen from outside. */
  datatype Event =
    | Retry                                  // NotReady: sleep, then ask again
    | Setup                                  // first OK step: allocate, plan, compute the layout, define the outputs
    | Process(step: nat, puts: seq<string>)  // read, transform and write one step, putting these variables

  /** The loop's state: step_num, the firstStep latch, what has happened so far, and whether the loop has been left. */
  datatype Loop = Loop(stepNum: nat, firstStep: bool, log: seq<Event>, closed: bool)

  function Start(): Loop
  {
    Loop(0, true, [], false)
  }

  /** One pass round the loop for one status. */
  function Iterate(l: Loop, status: StepStatus, cfg: Config): Loop
  {
    match status
    case NotReady => l.(log := l.log + [Retry])
    case Other => l.(closed := true)
    case OK =>
      var n := l.stepNum + 1;
      var setup := if l.firstStep then [Setup] else [];
      l.(stepNum := n, firstStep := false, log := l.log + setup + [Process(n, StepPuts(cfg))])
  }

  /** The loop run over a sequence of statuses, until it is left or the statuses run out. */
  function Run(l: Loop, statuses: seq<StepStatus>, cfg: Config): Loop
    decreases |statuses|
  {
    if l.closed || statuses == [] then l else Run(Iterate(l, statuses[0], cfg), statuses[1..], cfg)
  }

  // ---------------------------------------------------------------------
  // Reference definitions
  // ---------------------------------------------------------------------

  /** Position of the first status that ends the loop, or |s| when there is none. */
  function FirstStop(s: seq<StepStatus>): (k: nat)
    ensures k <= |s|
    ensures forall t :: 0 <= t < k ==> s[t] != Other
    ensures k < |s| ==> s[k] == Other
  {
    if s == [] then 0 else if s[0] == Other then 0 else 1 + FirstStop(s[1..])
  }

  /** The statuses the loop acts on before it is left. */
  function Live(s: seq<StepStatus>): seq<StepStatus>
  {
    s[..FirstStop(s)]
  }

  /** Step numbers of the Process events, in order. */
  function Steps(log: seq<Event>): seq<nat>
  {
    if log == [] then [] else (if log[0].Process? then [log[0].step] else []) + Steps(log[1..])
  }

  /** 1, 2, ..., n. */
  function Iota(n: nat): seq<nat>
  {
    seq(n, t requires 0 <= t < n => t + 1)
  }

  /**
   * What the loop guarantees about its state: the latch is set exactly while
   * no step has been seen; the steps processed are 1, 2, ..., step_num in
   * order; setup has run once after the first step and not before it, and
   * each setup is followed at once by the processing of step 1; every step
   * puts the same variables.
   */
  ghost predicate Wf(l: Loop, cfg: Config)
  {
    LatchWf(l) && StepsWf(l) && SetupWf(l, cfg) && PutsWf(l, cfg)
  }

  ghost predicate LatchWf(l: Loop)
  {
    (l.firstStep <==> l.stepNum == 0) &&
    multiset(l.log)[Setup] == (if l.firstStep then 0 else 1)
  }

  ghost predicate StepsWf(l: Loop)
  {
    Steps(l.log) == Iota(l.stepNum)
  }

  ghost predicate SetupWf(l: Loop, cfg: Config)
  {
    forall t :: 0 <= t < |l.log| && l.log[t] == Setup ==> t + 1 < |l.log| && l.log[t + 1] == Process(1, StepPuts(cfg))
  }

  ghost predicate PutsWf(l: Loop, cfg: Config)
  {
    forall t :: 0 <= t < |l.log| && l.log[t].Process? ==> l.log[t].puts == StepPuts(cfg)
  }

  // ---------------------------------------------------------------------
  // Lemmas
  // ---------------------------------------------------------------------

  lemma {:induction false} StepsAppend(a: seq<Event>, b: seq<Event>)
    ensures Steps(a + b) == Steps(a) + Steps(b)
    decreases |a|
  {
    if a == [] {
      assert a + b == b;
    } else {
      assert (a + b)[0] == a[0];
      assert (a + b)[1..] == a[1..] + b;
      StepsAppend(a[1..], b);
    }
  }

  /** A pass round the loop keeps Wf. */
  lemma IteratePreservesWf(l: Loop, status: StepStatus, cfg: Config)
    requires Wf(l, cfg)
    ensures Wf(Iterate(l, status, cfg), cfg)
  {
    var r := Iterate(l, status, cfg);
    match status
    case NotReady =>
      StepsAppend(l.log, [Retry]);
      assert multiset(r.log) == multiset(l.log) + multiset{Retry};
      assert PutsWf(r, cfg) by {
        assert forall t :: 0 <= t < |l.log| ==> r.log[t] == l.log[t];
      }
    case Other =>
    case OK =>
      IterateOkLatch(l, cfg);
      IterateOkSteps(l, cfg);
      IterateOkSetup(l, cfg);
      IterateOkPuts(l, cfg);
  }

  lemma IterateOkLatch(l: Loop, cfg: Config)
    requires LatchWf(l)
    ensures LatchWf(Iterate(l, OK, cfg))
  {
    var r := Iterate(l, OK, cfg);
    var p := Process(l.stepNum + 1, StepPuts(cfg));
    if l.firstStep {
      assert r.log == l.log + [Setup] + [p];
      assert multiset(r.log) == multiset(l.log) + multiset{Setup} + multiset{p};
    } else {
      assert r.log == l.log + [p];
      assert multiset(r.log) == multiset(l.log) + multiset{p};
    }
  }

  lemma IterateOkSteps(l: Loop, cfg: Config)
    requires StepsWf(l)
    ensures StepsWf(Iterate(l, OK, cfg))
  {
    var n := l.stepNum + 1;
    var setup := if l.firstStep then [Setup] else [];
    var tail := setup + [Process(n, StepPuts(cfg))];
    assert Iterate(l, OK, cfg).log == l.log + tail;
    StepsAppend(l.log, tail);
    StepsAppend(setup, [Process(n, StepPuts(cfg))]);
    assert Steps(setup) == [];
    assert Steps([Process(n, StepPuts(cfg))]) == [n];
    assert Iota(n) == Iota(l.stepNum) + [n];
  }

  lemma IterateOkSetup(l: Loop, cfg: Config)
    requires LatchWf(l) && SetupWf(l, cfg)
    ensures SetupWf(Iterate(l, OK, cfg), cfg)
  {
    var r := Iterate(l, OK, cfg);
    var p := Process(l.stepNum + 1, StepPuts(cfg));
    if l.firstStep {
      assert Setup !in multiset(l.log);
      assert r.log == l.log + [Setup, p];
      assert forall t :: 0 <= t < |l.log| ==> l.log[t] in multiset(l.log);
    } else {
      assert r.log == l.log + [p];
    }
  }

  lemma IterateOkPuts(l: Loop, cfg: Config)
    requires PutsWf(l, cfg)
    ensures PutsWf(Iterate(l, OK, cfg), cfg)
  {
    var r := Iterate(l, OK, cfg);
    var p := Process(l.stepNum + 1, StepPuts(cfg));
    if l.firstStep {
      assert r.log == l.log + [Setup, p];
    } else {
      assert r.log == l.log + [p];
    }
  }

  /** Running the loop keeps Wf. */
  lemma {:induction false} RunPreservesWf(l: Loop, s: seq<StepStatus>, cfg: Config)
    requires Wf(l, cfg)
    ensures Wf(Run(l, s, cfg), cfg)
    decreases |s|
  {
    if !l.closed && s != [] {
      IteratePreservesWf(l, s[0], cfg);
      RunPreservesWf(Iterate(l, s[0], cfg), s[1..], cfg);
    }
  }

  /** The loop is left exactly when some status is neither NotReady nor OK. */
  lemma {:induction false} RunClosed(l: Loop, s: seq<StepStatus>, cfg: Config)
    requires !l.closed
    ensures Run(l, s, cfg).closed <==> FirstStop(s) < |s|
    decreases |s|
  {
    if s != [] && s[0] != Other {
      RunClosed(Iterate(l, s[0], cfg), s[1..], cfg);
    }
  }

  /** Live(s) is s[0] followed by the live part of the rest, unless s[0] ends the loop. */
  lemma LiveCons(s: seq<StepStatus>)
    requires s != [] && s[0] != Other
    ensures multiset(Live(s)) == multiset{s[0]} + multiset(Live(s[1..]))
  {
    assert Live(s) == [s[0]] + Live(s[1..]);
  }

  /** step_num goes up by one for each OK status before the loop is left. */
  lemma {:induction false} RunStepNum(l: Loop, s: seq<StepStatus>, cfg: Config)
    requires !l.closed
    ensures Run(l, s, cfg).stepNum == l.stepNum + multiset(Live(s))[OK]
    decreases |s|
  {
    if s != [] && s[0] != Other {
      RunStepNum(Iterate(l, s[0], cfg), s[1..], cfg);
      LiveCons(s);
    }
  }

  /** One Retry is logged for each NotReady status before the loop is left. */
  lemma {:induction false} RunRetries(l: Loop, s: seq<StepStatus>, cfg: Config)
    requires !l.closed
    ensures multiset(Run(l, s, cfg).log)[Retry] == multiset(l.log)[Retry] + multiset(Live(s))[NotReady]
    decreases |s|
  {
    if s != [] && s[0] != Other {
      RunRetries(Iterate(l, s[0], cfg), s[1..], cfg);
      LiveCons(s);
      IterateRetries(l, s[0], cfg);
    }
  }

  /** A pass logs one Retry for NotReady and none otherwise. */
  lemma IterateRetries(l: Loop, status: StepStatus, cfg: Config)
    ensures multiset(Iterate(l, status, cfg).log)[Retry] == multiset(l.log)[Retry] + (if status == NotReady then 1 else 0)
  {
    var l' := Iterate(l, status, cfg);
    if status == OK {
      var setup := if l.firstStep then [Setup] else [];
      assert l'.log == l.log + setup + [Process(l.stepNum + 1, StepPuts(cfg))];
      assert multiset(l'.log) == multiset(l.log) + multiset(setup) + multiset{Process(l.stepNum + 1, StepPuts(cfg))};
    } else if status == NotReady {
      assert multiset(l'.log) == multiset(l.log) + multiset{Retry};
    }
  }

  /** Nothing after the status that ends the loop is looked at. */
  lemma {:induction false} RunStopsAtFirstStop(l: Loop, s: seq<StepStatus>, cfg: Config)
    requires !l.closed
    requires FirstStop(s) < |s|
    ensures Run(l, s, cfg) == Run(l, s[..FirstStop(s) + 1], cfg)
    decreases |s|
  {
    var k := FirstStop(s);
    var p := s[..k + 1];
    assert p != [] && p[0] == s[0];
    if s[0] != Other {
      RunStopsAtFirstStop(Iterate(l, s[0], cfg), s[1..], cfg);
      assert p[1..] == s[1..][..FirstStop(s[1..]) + 1];
    }
  }

  /**
   * Everything the loop promises for a run from its initial state: the
   * number of steps is the number of OK statuses before the one that ends
   * the loop, steps are processed as 1, 2, ..., step_num with no gap and no
   * repeat, setup runs exactly once if there is a step and never otherwise,
   * right before step 1, and each NotReady left one retry.
   */
  lemma RunFromStart(s: seq<StepStatus>, cfg: Config)
    ensures var r := Run(Start(), s, cfg);
      r.stepNum == multiset(Live(s))[OK] &&
      (r.closed <==> FirstStop(s) < |s|) &&
      (r.firstStep <==> r.stepNum == 0) &&
      Steps(r.log) == Iota(r.stepNum) &&
      multiset(r.log)[Setup] == (if r.stepNum == 0 then 0 else 1) &&
      (forall t :: 0 <= t < |r.log| && r.log[t] == Setup ==> t + 1 < |r.log| && r.log[t + 1] == Process(1, StepPuts(cfg))) &&
      (forall t :: 0 <= t < |r.log| && r.log[t].Process? ==> r.log[t].puts == StepPuts(cfg)) &&
      multiset(r.log)[Retry] == multiset(Live(s))[NotReady]
  {
    assert Steps([]) == [] == Iota(0);
    assert Wf(Start(), cfg);
    RunPreservesWf(Start(), s, cfg);
    RunClosed(Start(), s, cfg);
    RunStepNum(Start(), s, cfg);
    RunRetries(Start(), s, cfg);
  }

  /**
   * A run that sees no OK status leaves the latch set: the setup block never
   * ran, so the transform buffers and the plan were never assigned.
   */
  lemma RunWithoutStepKeepsLatch(s: seq<StepStatus>, cfg: Config)
    requires multiset(Live(s))[OK] == 0
    ensures Run(Start(), s, cfg).firstStep
    ensures Setup !in multiset(Run(Start(), s, cfg).log)
  {
    RunFromStart(s, cfg);
  }

  /** NotReady three times and then OK: one step, after three retries, with setup before it. */
  lemma ScenarioRetriesThenStep(cfg: Config)
    ensures Run(Start(), [NotReady, NotReady, NotReady, OK], cfg)
         == Loop(1, false, [Retry, Retry, Retry, Setup, Process(1, StepPuts(cfg))], false)
  {
    var s := [NotReady, NotReady, NotReady, OK];
    assert s[1..] == [NotReady, NotReady, OK];
    assert s[1..][1..] == [NotReady, OK];
    assert s[1..][1..][1..] == [OK];
  }

  /** Four OK steps and then the end of the stream: steps 1 to 4, then the loop is left. */
  lemma ScenarioEndAfterFourSteps(rest: seq<StepStatus>, cfg: Config)
    ensures var r := Run(Start(), [OK, OK, OK, OK, Other] + rest, cfg);
      r.closed && r.stepNum == 4 && Steps(r.log) == [1, 2, 3, 4]
  {
    var s := [OK, OK, OK, OK, Other] + rest;
    assert FirstStop(s[4..]) == 0;
    assert FirstStop(s) == 4;
    assert Live(s) == [OK, OK, OK, OK];
    RunFromStart(s, cfg);
    assert Iota(4) == [1, 2, 3, 4];
  }

  // ---------------------------------------------------------------------
  // The loop as the program runs it
  // ---------------------------------------------------------------------

  /**
   * The while(true) loop over the statuses the stream reports. If the
   * statuses run out before one of them ends the loop, the result is the
   * state reached so far (the program would go on asking).
   */
  method Drive(statuses: seq<StepStatus>, cfg: Config) returns (stepNum: nat, firstStep: bool, log: seq<Event>, closed: bool)
    ensures Loop(stepNum, firstStep, log, closed) == Run(Start(), statuses, cfg)
    ensures stepNum == multiset(Live(statuses))[OK]
    ensures closed <==> FirstStop(statuses) < |statuses|
    ensures Steps(log) == Iota(stepNum)
    ensures multiset(log)[Setup] == (if stepNum == 0 then 0 else 1)
  {
    stepNum, firstStep, log, closed := 0, true, [], false;
    var next := 0;
    while next < |statuses|
      invariant next <= |statuses|
      invariant Run(Loop(stepNum, firstStep, log, false), statuses[next..], cfg) == Run(Start(), statuses, cfg)
    {
      var status := statuses[next];
      ghost var before := Loop(stepNum, firstStep, log, false);
      assert statuses[next..][1..] == statuses[next + 1..];
      assert Run(before, statuses[next..], cfg) == Run(Iterate(before, status, cfg), statuses[next + 1..], cfg);
      next := next + 1;
      if status == NotReady {
        log := log + [Retry];
        continue;
      } else if status != OK {
        closed := true;
        assert Loop(stepNum, firstStep, log, closed) == Run(Start(), statuses, cfg);
        break;
      }
      stepNum := stepNum + 1;
      if firstStep {
        log := log + [Setup];
        firstStep := false;
      }
      log := log + [Process(stepNum, StepPuts(cfg))];
      assert Loop(stepNum, firstStep, log, false) == Iterate(before, status, cfg);
    }
    RunFromStart(statuses, cfg);
  }
}
