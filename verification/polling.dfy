/** The polling engine: one poll fetches the aggregate status and the
    connection list and derives rates against the previous successful
    poll; the monitor loop keeps that baseline across polls. */
module Polling {
  import opened Outcomes
  import opened GoInt
  import opened StatsRequest

  /** `time.Time` as the engine uses it: the zero value, or a clock reading in nanoseconds. */
  datatype Time = ZeroTime | Clock(nanos: int)

  /** A counter's change observed between two poll instants. The per-second
      value the program computes from it in floating point is not modelled;
      the zero value of a rate is NoRate. */
  datatype Rate = NoRate | Rate(delta: Int64, since: int, until: int)

  datatype Rates = Rates(inMsgs: Rate, outMsgs: Rate, inBytes: Rate, outBytes: Rate)

  const ZeroRates := Rates(NoRate, NoRate, NoRate, NoRate)

  /** A poll's error field: the sentinel that marks success, or a request error. */
  datatype PollError = Dud | Failed(err: StatsRequest.Error)

  /** One published snapshot. */
  datatype Stats = Stats(varz: Varz, connz: Connz, rates: Rates, error: PollError)

  predicate Succeeded(s: Stats) {
    s.error == Dud
  }

  /** `fetchStats`: the aggregate status first, then the connection list;
      the first failing request ends the poll with its error and the zero
      time. On success the rates are zero on the first poll and otherwise
      span from the last poll time to now. The "last value" counters are
      fresh zeros on every call, so each delta is the cumulative counter. */
  function FetchStats(e: Engine, srv: Server, isFirstTime: bool, lastPollTime: int, now: int): (r: (Stats, Time))
    ensures Succeeded(r.0) <==> Request(e, "/varz", srv).Success? && Request(e, "/connz", srv).Success?
    ensures !Succeeded(r.0) ==> r.0.rates == ZeroRates && r.1 == ZeroTime && r.0.connz == EmptyConnz
    ensures Request(e, "/varz", srv).Failure? ==>
      r.0 == Stats(EmptyVarz, EmptyConnz, ZeroRates, Failed(Request(e, "/varz", srv).error))
    ensures Request(e, "/varz", srv).Success? && Request(e, "/connz", srv).Failure? ==>
      r.0 == Stats(Request(e, "/varz", srv).value.varz, EmptyConnz, ZeroRates, Failed(Request(e, "/connz", srv).error))
    ensures Succeeded(r.0) ==>
      && r.1 == Clock(now)
      && r.0.varz == Request(e, "/varz", srv).value.varz
      && r.0.connz == Request(e, "/connz", srv).value.connz
    ensures Succeeded(r.0) && isFirstTime ==> r.0.rates == ZeroRates
    ensures Succeeded(r.0) && !isFirstTime ==>
      r.0.rates == Rates(
        Rate(r.0.varz.inMsgs, lastPollTime, now),
        Rate(r.0.varz.outMsgs, lastPollTime, now),
        Rate(r.0.varz.inBytes, lastPollTime, now),
        Rate(r.0.varz.outBytes, lastPollTime, now))
  {
    match Request(e, "/varz", srv)
    case Failure(err) => (Stats(EmptyVarz, EmptyConnz, ZeroRates, Failed(err)), ZeroTime)
    case Success(vs) =>
      var varz := if vs.VarzStatz? then vs.varz else EmptyVarz;
      match Request(e, "/connz", srv)
      case Failure(err) => (Stats(varz, EmptyConnz, ZeroRates, Failed(err)), ZeroTime)
      case Success(cs) =>
        var connz := if cs.ConnzStatz? then cs.connz else EmptyConnz;
        var rates :=
          if isFirstTime then ZeroRates
          else Rates(
            Rate(Sub64(varz.inMsgs, 0), lastPollTime, now),
            Rate(Sub64(varz.outMsgs, 0), lastPollTime, now),
            Rate(Sub64(varz.inBytes, 0), lastPollTime, now),
            Rate(Sub64(varz.outBytes, 0), lastPollTime, now));
        (Stats(varz, connz, rates, Dud), Clock(now))
  }

  /** `FetchStatsSnapshot`: a single poll treated as the first one. */
  function FetchStatsSnapshot(e: Engine, srv: Server, now: int): (s: Stats)
    ensures s.rates == ZeroRates
    ensures Succeeded(s) <==> Request(e, "/varz", srv).Success? && Request(e, "/connz", srv).Success?
  {
    FetchStats(e, srv, true, now, now).0
  }

  /** The monitor loop's baseline: whether no poll has succeeded yet, and
      the clock reading the next rates start from. */
  datatype Monitor = Monitor(isFirstTime: bool, lastPollTime: int)

  function StartMonitor(now: int): Monitor {
    Monitor(true, now)
  }

  /** One timer tick: the engine options and server at that moment, and the clock. */
  datatype Tick = Tick(engine: Engine, srv: Server, now: int)

  /** One iteration of `MonitorStats`: poll, advance the baseline only when
      the poll succeeded, and send the snapshot either way. */
  function MonitorTick(m: Monitor, t: Tick): (r: (Monitor, Stats))
    ensures r.1 == FetchStats(t.engine, t.srv, m.isFirstTime, m.lastPollTime, t.now).0
    ensures Succeeded(r.1) ==> r.0 == Monitor(false, t.now)
    ensures !Succeeded(r.1) ==> r.0 == m
  {
    var (stats, newLastPollTime) := FetchStats(t.engine, t.srv, m.isFirstTime, m.lastPollTime, t.now);
    if stats.error == Dud then (Monitor(false, newLastPollTime.nanos), stats) else (m, stats)
  }

  /** The monitor after a run of ticks, and every snapshot it sent, in order. */
  function MonitorRun(m: Monitor, ticks: seq<Tick>): (r: (Monitor, seq<Stats>))
    ensures |r.1| == |ticks|
    decreases |ticks|
  {
    if |ticks| == 0 then (m, [])
    else
      var (before, sent) := MonitorRun(m, ticks[..|ticks| - 1]);
      var (after, stats) := MonitorTick(before, ticks[|ticks| - 1]);
      (after, sent + [stats])
  }

  /** A run's snapshots extend the snapshots of each of its prefixes. */
  lemma {:induction false} MonitorRunPrefix(m: Monitor, ticks: seq<Tick>, k: nat)
    requires k <= |ticks|
    ensures MonitorRun(m, ticks[..k]).1 == MonitorRun(m, ticks).1[..k]
    decreases |ticks|
  {
    var n := |ticks|;
    if k < n {
      assert ticks[..n - 1][..k] == ticks[..k];
      MonitorRunPrefix(m, ticks[..n - 1], k);
    } else {
      assert ticks[..k] == ticks;
    }
  }

  /** Every tick sends exactly the snapshot its poll produced from the
      baseline left by the ticks before it. */
  lemma MonitorRunSendsEveryPoll(m: Monitor, ticks: seq<Tick>, i: nat)
    requires i < |ticks|
    ensures MonitorRun(m, ticks).1[i] == MonitorTick(MonitorRun(m, ticks[..i]).0, ticks[i]).1
  {
    var upTo := ticks[..i + 1];
    MonitorRunPrefix(m, ticks, i + 1);
    assert upTo[..|upTo| - 1] == ticks[..i];
    assert upTo[|upTo| - 1] == ticks[i];
    var (before, sent) := MonitorRun(m, ticks[..i]);
    assert MonitorRun(m, upTo).1 == sent + [MonitorTick(before, ticks[i]).1];
  }

  /** The baseline after a run: untouched when no poll succeeded; otherwise
      no longer first-time, and timed at the last successful poll. */
  lemma MonitorRunBaseline(m: Monitor, ticks: seq<Tick>)
    ensures var r := MonitorRun(m, ticks);
      (forall i :: 0 <= i < |ticks| ==> !Succeeded(r.1[i])) ==> r.0 == m
    ensures var r := MonitorRun(m, ticks);
      forall j :: 0 <= j < |ticks| && Succeeded(r.1[j])
        && (forall i :: j < i < |ticks| ==> !Succeeded(r.1[i]))
        ==> r.0 == Monitor(false, ticks[j].now)
  {
    MonitorRunUntouched(m, ticks);
    forall j | 0 <= j < |ticks| && Succeeded(MonitorRun(m, ticks).1[j])
        && (forall i :: j < i < |ticks| ==> !Succeeded(MonitorRun(m, ticks).1[i]))
      ensures MonitorRun(m, ticks).0 == Monitor(false, ticks[j].now)
    {
      MonitorRunLastSuccess(m, ticks, j);
    }
  }

  lemma {:induction false} MonitorRunUntouched(m: Monitor, ticks: seq<Tick>)
    ensures (forall i :: 0 <= i < |ticks| ==> !Succeeded(MonitorRun(m, ticks).1[i])) ==> MonitorRun(m, ticks).0 == m
    decreases |ticks|
  {
    var n := |ticks|;
    if n > 0 && forall i :: 0 <= i < n ==> !Succeeded(MonitorRun(m, ticks).1[i]) {
      var prefix := ticks[..n - 1];
      MonitorRunUntouched(m, prefix);
      var before := MonitorRun(m, prefix);
      var after := MonitorTick(before.0, ticks[n - 1]);
      assert MonitorRun(m, ticks) == (after.0, before.1 + [after.1]);
      assert !Succeeded(MonitorRun(m, ticks).1[n - 1]);
      assert forall i :: 0 <= i < n - 1 ==> MonitorRun(m, ticks).1[i] == before.1[i];
    }
  }

  lemma {:induction false} MonitorRunLastSuccess(m: Monitor, ticks: seq<Tick>, j: nat)
    requires j < |ticks| && Succeeded(MonitorRun(m, ticks).1[j])
    requires forall i :: j < i < |ticks| ==> !Succeeded(MonitorRun(m, ticks).1[i])
    ensures MonitorRun(m, ticks).0 == Monitor(false, ticks[j].now)
    decreases |ticks|
  {
    var n := |ticks|;
    var prefix := ticks[..n - 1];
    var before := MonitorRun(m, prefix);
    var after := MonitorTick(before.0, ticks[n - 1]);
    assert MonitorRun(m, ticks) == (after.0, before.1 + [after.1]);
    if j < n - 1 {
      assert !Succeeded(MonitorRun(m, ticks).1[n - 1]);
      assert forall i :: 0 <= i < n - 1 ==> MonitorRun(m, ticks).1[i] == before.1[i];
      MonitorRunLastSuccess(m, prefix, j);
    } else {
      assert Succeeded(after.1);
    }
  }

  /** Rates are zero on every poll until one succeeds: the first successful
      poll of a fresh monitor reports zero rates, and so does any poll
      before it. */
  lemma MonitorFirstSuccessHasZeroRates(now0: int, ticks: seq<Tick>, i: nat)
    requires i < |ticks|
    requires forall j :: 0 <= j < i ==> !Succeeded(MonitorRun(StartMonitor(now0), ticks).1[j])
    ensures MonitorRun(StartMonitor(now0), ticks).1[i].rates == ZeroRates
  {
    var m := StartMonitor(now0);
    var prefix := ticks[..i];
    MonitorRunSendsEveryPoll(m, ticks, i);
    MonitorRunPrefix(m, ticks, i);
    var sent := MonitorRun(m, prefix).1;
    assert sent == MonitorRun(m, ticks).1[..i];
    assert forall p :: 0 <= p < |prefix| ==> !Succeeded(sent[p]);
    MonitorRunUntouched(m, prefix);
    assert MonitorRun(m, prefix).0 == m;
    var s := MonitorRun(m, ticks).1[i];
    assert s == FetchStats(ticks[i].engine, ticks[i].srv, true, now0, ticks[i].now).0;
  }

  /** After a successful poll, the next successful poll's rates span from
      that poll's clock reading to its own, with polls that failed in
      between ignored. */
  lemma MonitorRatesSpanFromLastSuccess(m: Monitor, ticks: seq<Tick>, j: nat, i: nat)
    requires j < i < |ticks|
    requires Succeeded(MonitorRun(m, ticks).1[j])
    requires forall p :: j < p < i ==> !Succeeded(MonitorRun(m, ticks).1[p])
    requires Succeeded(MonitorRun(m, ticks).1[i])
    ensures var s := MonitorRun(m, ticks).1[i];
      s.rates == Rates(
        Rate(s.varz.inMsgs, ticks[j].now, ticks[i].now),
        Rate(s.varz.outMsgs, ticks[j].now, ticks[i].now),
        Rate(s.varz.inBytes, ticks[j].now, ticks[i].now),
        Rate(s.varz.outBytes, ticks[j].now, ticks[i].now))
  {
    var prefix := ticks[..i];
    MonitorRunSendsEveryPoll(m, ticks, i);
    MonitorRunPrefix(m, ticks, i);
    var sent := MonitorRun(m, prefix).1;
    assert sent == MonitorRun(m, ticks).1[..i];
    assert Succeeded(sent[j]) && prefix[j] == ticks[j];
    assert forall p :: j < p < |prefix| ==> !Succeeded(sent[p]);
    MonitorRunLastSuccess(m, prefix, j);
    var base := MonitorRun(m, prefix).0;
    assert base == Monitor(false, ticks[j].now);
    var s := MonitorRun(m, ticks).1[i];
    assert s == FetchStats(ticks[i].engine, ticks[i].srv, false, ticks[j].now, ticks[i].now).0;
  }
}
