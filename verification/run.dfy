/** The accounting of the transmit loop: a byte counter that grows by one
    batch per iteration, a baseline reset at every report, and the stop
    check at the end of each iteration. The clock is replaced by a boolean
    saying whether the reporting interval has elapsed. */
module Run {
  import opened Config
  import opened Throughput

  /** Bytes accounted per iteration: `BATCH_SIZE * PACKET_SIZE`, counted
      whether or not that many buffers were actually allocated and sent. */
  const STEP: nat := BATCH_SIZE * PACKET_SIZE

  /** One past the largest `usize` on a 64-bit target. */
  const USIZE_LIMIT: nat := 0x1_0000_0000_0000_0000

  /** `send_bytes` and `past_send_bytes`. */
  datatype RunState = RunState(sendBytes: nat, pastSendBytes: nat)

  /** The baseline never passes the counter, so the delta never underflows. */
  predicate Valid(s: RunState)
  {
    s.pastSendBytes <= s.sendBytes
  }

  /** Both counters start at zero. */
  const START: RunState := RunState(0, 0)

  /** One printed line: the bytes since the previous report and the two
      figures shown for them. */
  datatype Report = Report(delta: nat, transfer: Fixed3, bandwidth: Fixed3)

  /** The figures of `r` are the ones printed for its delta. */
  predicate Shown(r: Report)
  {
    r.transfer == Transfer(r.delta) && r.bandwidth == Bandwidth(r.delta)
  }

  datatype Option<T> = None | Some(value: T)

  /** What one iteration leaves behind. */
  datatype Outcome = Outcome(state: RunState, report: Option<Report>, stop: bool)

  /** One loop iteration after the transmit call: account one batch; if the
      interval has elapsed, report the bytes since the baseline and move the
      baseline up to the counter; then decide whether to stop. */
  function Step(s: RunState, elapsed: bool): (o: Outcome)
    requires Valid(s)
    ensures Valid(o.state)
    ensures o.state.sendBytes == s.sendBytes + STEP
    ensures o.report.Some? <==> elapsed
    ensures elapsed ==> && o.state.pastSendBytes == o.state.sendBytes
                        && o.report.value.delta == o.state.sendBytes - s.pastSendBytes
                        && Names(o.report.value.transfer, o.report.value.delta)
                        && Names(o.report.value.bandwidth, 8 * o.report.value.delta)
                        && Shown(o.report.value)
    ensures !elapsed ==> o.state.pastSendBytes == s.pastSendBytes
    ensures o.stop <==> o.state.sendBytes >= MAX_BYTES
  {
    var sent := s.sendBytes + STEP;
    if elapsed then
      var delta := sent - s.pastSendBytes;
      Outcome(RunState(sent, sent), Some(Report(delta, Transfer(delta), Bandwidth(delta))),
              sent >= MAX_BYTES)
    else
      Outcome(RunState(sent, s.pastSendBytes), None, sent >= MAX_BYTES)
  }

  /** The state after iterating once per entry of `clock`, ignoring the stop
      check; the baseline stays at or below the counter throughout. */
  function Steps(s: RunState, clock: seq<bool>): (r: RunState)
    requires Valid(s)
    ensures Valid(r)
    decreases |clock|
  {
    if |clock| == 0 then s else Steps(Step(s, clock[0]).state, clock[1..])
  }

  /** One more iteration at the end of a run of iterations. */
  lemma {:induction false} StepsSnoc(s: RunState, clock: seq<bool>, elapsed: bool)
    requires Valid(s)
    ensures Steps(s, clock + [elapsed]) == Step(Steps(s, clock), elapsed).state
    decreases |clock|
  {
    if |clock| > 0 {
      assert (clock + [elapsed])[1..] == clock[1..] + [elapsed];
      StepsSnoc(Step(s, clock[0]).state, clock[1..], elapsed);
    }
  }

  /** The clock readings of the first `n` iterations. */
  function Clock(elapsed: nat -> bool, n: nat): (c: seq<bool>)
    ensures |c| == n && forall k :: 0 <= k < n ==> c[k] == elapsed(k)
  {
    if n == 0 then [] else Clock(elapsed, n - 1) + [elapsed(n - 1)]
  }

  /** The line one iteration prints, if any. */
  function Emitted(o: Outcome): (rs: seq<Report>)
    ensures |rs| == (if o.report.Some? then 1 else 0)
  {
    if o.report.Some? then [o.report.value] else []
  }

  /** The lines printed while iterating once per entry of `clock`: each
      shows the figures of its own delta, and each covers at least one
      batch. */
  function ReportsOf(s: RunState, clock: seq<bool>): (rs: seq<Report>)
    requires Valid(s)
    ensures forall i :: 0 <= i < |rs| ==> Shown(rs[i]) && rs[i].delta >= STEP
    decreases |clock|
  {
    if |clock| == 0 then []
    else
      var o := Step(s, clock[0]);
      Emitted(o) + ReportsOf(o.state, clock[1..])
  }

  /** The number of iterations whose interval had elapsed. */
  function CountElapsed(clock: seq<bool>): (n: nat)
    ensures n <= |clock|
  {
    if |clock| == 0 then 0 else (if clock[0] then 1 else 0) + CountElapsed(clock[1..])
  }

  /** One line is printed per iteration whose interval had elapsed. */
  lemma {:induction false} ReportsCount(s: RunState, clock: seq<bool>)
    requires Valid(s)
    ensures |ReportsOf(s, clock)| == CountElapsed(clock)
    decreases |clock|
  {
    if |clock| > 0 {
      ReportsCount(Step(s, clock[0]).state, clock[1..]);
    }
  }

  /** One more iteration appends the line it prints, if any. */
  lemma {:induction false} ReportsSnoc(s: RunState, clock: seq<bool>, elapsed: bool)
    requires Valid(s)
    ensures ReportsOf(s, clock + [elapsed])
            == ReportsOf(s, clock) + Emitted(Step(Steps(s, clock), elapsed))
    decreases |clock|
  {
    if |clock| == 0 {
      assert ([elapsed])[1..] == [];
    } else {
      assert (clock + [elapsed])[1..] == clock[1..] + [elapsed];
      ReportsSnoc(Step(s, clock[0]).state, clock[1..], elapsed);
    }
  }

  /** After k iterations the counter has grown by exactly k batches,
      whatever the clock did. */
  lemma {:induction false} StepsAccounting(s: RunState, clock: seq<bool>)
    requires Valid(s)
    ensures Steps(s, clock).sendBytes == s.sendBytes + STEP * |clock|
    decreases |clock|
  {
    if |clock| > 0 {
      StepsAccounting(Step(s, clock[0]).state, clock[1..]);
    }
  }

  /** Iterations at which the interval has not elapsed leave the baseline
      alone, so the next report covers every batch since the previous one:
      right after a report (baseline equal to the counter) that is one batch
      per quiet iteration plus the reporting one. */
  lemma {:induction false} NextReportDelta(s: RunState, quiet: seq<bool>)
    requires Valid(s)
    requires forall i :: 0 <= i < |quiet| ==> !quiet[i]
    ensures Steps(s, quiet).pastSendBytes == s.pastSendBytes
    ensures Step(Steps(s, quiet), true).report.value.delta
            == (s.sendBytes - s.pastSendBytes) + STEP * (|quiet| + 1)
    decreases |quiet|
  {
    StepsAccounting(s, quiet);
    if |quiet| > 0 {
      NextReportDelta(Step(s, quiet[0]).state, quiet[1..]);
    }
  }

  /** The iteration that stops the run is the first whose counter reaches
      `MAX_BYTES`: the 1,041,667th, after 50,000,016,000 bytes. */
  lemma FirstStop(k: nat)
    ensures (STEP * k >= MAX_BYTES && (k == 0 || STEP * (k - 1) < MAX_BYTES)) <==> k == 1041667
  {
  }

  /** The sum of the deltas of `reports`. */
  function Reported(reports: seq<Report>): (n: nat)
  {
    if |reports| == 0 then 0 else reports[0].delta + Reported(reports[1..])
  }

  /** Every byte accounted while iterating is either in one of the printed
      lines or still pending since the last of them. */
  lemma {:induction false} ReportsConserve(s: RunState, clock: seq<bool>)
    requires Valid(s)
    ensures Reported(ReportsOf(s, clock))
            + (Steps(s, clock).sendBytes - Steps(s, clock).pastSendBytes)
            == (s.sendBytes - s.pastSendBytes) + STEP * |clock|
    decreases |clock|
  {
    if |clock| > 0 {
      var o := Step(s, clock[0]);
      var rest := ReportsOf(o.state, clock[1..]);
      ReportsConserve(o.state, clock[1..]);
      if o.report.Some? {
        assert (Emitted(o) + rest)[1..] == rest;
      } else {
        assert Emitted(o) + rest == rest;
      }
    }
  }

  /** The whole run, with `elapsed(k)` telling whether the interval had
      elapsed at iteration k (counted from 0). The loop stops on the first
      iteration whose counter reaches `MAX_BYTES`. The final state and the
      printed lines are the ones `Steps` and `ReportsOf` give for the clock
      readings of all iterations, so `StepsAccounting` and
      `NextReportDelta` apply to the loop. One line is printed per
      iteration whose interval had elapsed, each with the figures of its
      own delta and covering at least one batch, and every byte accounted
      is in exactly one line or still pending since the last one. */
  method RunLoop(elapsed: nat -> bool) returns (iterations: nat, last: RunState, reports: seq<Report>)
    ensures iterations == 1041667
    ensures last.sendBytes == STEP * iterations == 50000016000
    ensures STEP * (iterations - 1) < MAX_BYTES <= last.sendBytes
    ensures Valid(last)
    ensures last == Steps(START, Clock(elapsed, iterations))
    ensures reports == ReportsOf(START, Clock(elapsed, iterations))
    ensures forall i :: 0 <= i < |reports| ==> Shown(reports[i])
    ensures |reports| == CountElapsed(Clock(elapsed, iterations))
    ensures Reported(reports) + (last.sendBytes - last.pastSendBytes) == last.sendBytes
    ensures forall i :: 0 <= i < |reports| ==> reports[i].delta >= STEP
    ensures |reports| <= iterations
    ensures 8 * last.sendBytes < USIZE_LIMIT
  {
    var s := START;
    iterations := 0;
    reports := [];
    while true
      invariant s == Steps(START, Clock(elapsed, iterations))
      invariant reports == ReportsOf(START, Clock(elapsed, iterations))
      invariant s.sendBytes == STEP * iterations < MAX_BYTES
      decreases MAX_BYTES - s.sendBytes
    {
      var o := Step(s, elapsed(iterations));
      StepsSnoc(START, Clock(elapsed, iterations), elapsed(iterations));
      ReportsSnoc(START, Clock(elapsed, iterations), elapsed(iterations));
      assert Clock(elapsed, iterations + 1) == Clock(elapsed, iterations) + [elapsed(iterations)];
      reports := reports + Emitted(o);
      s := o.state;
      iterations := iterations + 1;
      if o.stop {
        FirstStop(iterations);
        ReportsCount(START, Clock(elapsed, iterations));
        ReportsConserve(START, Clock(elapsed, iterations));
        last := s;
        return;
      }
    }
  }
}
