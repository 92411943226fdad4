/** The display loop: each iteration sorts the connection list by the
    selected key and derives the four traffic deltas from the counters it
    kept from the previous iteration. Rendering is not modelled. */
module SimpleUi {
  import opened GoInt
  import Conn
  import opened StatsRequest
  import opened Polling

  /** The `switch` on the sort option: ascending by connection id, and
      descending (through `sort.Reverse`) by every other key; any other value
      leaves the list as it came. */
  method SortConnections(conns: seq<Conn.ConnInfo>, sortOpt: string) returns (r: seq<Conn.ConnInfo>)
    ensures Conn.KeyOfName(sortOpt).None? ==> r == conns
    ensures Conn.KeyOfName(sortOpt).Some? ==>
      && multiset(r) == multiset(conns)
      && Conn.SortedBy(r, Conn.KeyOfName(sortOpt).value, Conn.KeyOfName(sortOpt).value != Conn.ByCid)
  {
    if sortOpt == "cid" {
      r := Conn.Sort(conns, Conn.ByCid, false);
    } else if sortOpt == "subs" {
      r := Conn.Sort(conns, Conn.BySubs, true);
    } else if sortOpt == "pending" {
      r := Conn.Sort(conns, Conn.ByPending, true);
    } else if sortOpt == "msgs_to" {
      r := Conn.Sort(conns, Conn.ByMsgsTo, true);
    } else if sortOpt == "msgs_from" {
      r := Conn.Sort(conns, Conn.ByMsgsFrom, true);
    } else if sortOpt == "bytes_to" {
      r := Conn.Sort(conns, Conn.ByBytesTo, true);
    } else if sortOpt == "bytes_from" {
      r := Conn.Sort(conns, Conn.ByBytesFrom, true);
    } else {
      r := conns;
    }
  }

  /** The four cumulative traffic counters of the aggregate status. */
  datatype Counters = Counters(inMsgs: Int64, outMsgs: Int64, inBytes: Int64, outBytes: Int64)

  const ZeroCounters := Counters(0, 0, 0, 0)

  function CountersOf(v: Varz): Counters {
    Counters(v.inMsgs, v.outMsgs, v.inBytes, v.outBytes)
  }

  /** The state the loop carries between iterations: whether this is the
      first one, the counters last seen, when the last poll happened, and
      the rates last shown. */
  datatype Display = Display(first: bool, last: Counters, pollTime: int, rates: Rates)

  function StartDisplay(now: int): Display {
    Display(true, ZeroCounters, now, ZeroRates)
  }

  /** One loop iteration on a fresh aggregate status read at clock `now`:
      each delta is the current counter minus the last one, the last
      counters and the poll time move on, and the rates are recomputed from
      the deltas on every iteration but the first. */
  function Poll(d: Display, v: Varz, now: int): (r: Display)
    ensures !r.first && r.last == CountersOf(v) && r.pollTime == now
    ensures d.first ==> r.rates == d.rates
    ensures !d.first ==> r.rates == Rates(
      Rate(Sub64(v.inMsgs, d.last.inMsgs), d.pollTime, now),
      Rate(Sub64(v.outMsgs, d.last.outMsgs), d.pollTime, now),
      Rate(Sub64(v.inBytes, d.last.inBytes), d.pollTime, now),
      Rate(Sub64(v.outBytes, d.last.outBytes), d.pollTime, now))
  {
    var delta := Counters(
      Sub64(v.inMsgs, d.last.inMsgs),
      Sub64(v.outMsgs, d.last.outMsgs),
      Sub64(v.inBytes, d.last.inBytes),
      Sub64(v.outBytes, d.last.outBytes));
    var rates :=
      if !d.first then
        Rates(
          Rate(delta.inMsgs, d.pollTime, now),
          Rate(delta.outMsgs, d.pollTime, now),
          Rate(delta.inBytes, d.pollTime, now),
          Rate(delta.outBytes, d.pollTime, now))
      else d.rates;
    Display(false, CountersOf(v), now, rates)
  }

  /** One aggregate status and the clock reading of its iteration. */
  datatype Sample = Sample(varz: Varz, now: int)

  /** The loop state after a run of iterations. */
  function Run(d: Display, samples: seq<Sample>): (r: Display)
    ensures |samples| == 0 ==> r == d
    ensures |samples| >= 1 ==>
      && !r.first
      && r.last == CountersOf(samples[|samples| - 1].varz)
      && r.pollTime == samples[|samples| - 1].now
    decreases |samples|
  {
    if |samples| == 0 then d
    else Poll(Run(d, samples[..|samples| - 1]), samples[|samples| - 1].varz, samples[|samples| - 1].now)
  }

  /** The rates the loop shows for two consecutive samples: each counter's delta over their interval. */
  function DeltaRates(prev: Sample, cur: Sample): Rates {
    Rates(
      Rate(Sub64(cur.varz.inMsgs, prev.varz.inMsgs), prev.now, cur.now),
      Rate(Sub64(cur.varz.outMsgs, prev.varz.outMsgs), prev.now, cur.now),
      Rate(Sub64(cur.varz.inBytes, prev.varz.inBytes), prev.now, cur.now),
      Rate(Sub64(cur.varz.outBytes, prev.varz.outBytes), prev.now, cur.now))
  }

  /** After n >= 1 iterations from the start: the first flag is down, the
      last counters and poll time are those of the latest sample, and the
      rates are zero after one iteration and otherwise the deltas between
      the two latest samples. */
  lemma RunTracksLatestDeltas(t0: int, samples: seq<Sample>)
    requires |samples| >= 1
    ensures var d, n := Run(StartDisplay(t0), samples), |samples|;
      && !d.first
      && d.last == CountersOf(samples[n - 1].varz)
      && d.pollTime == samples[n - 1].now
      && d.rates == (if n == 1 then ZeroRates else DeltaRates(samples[n - 2], samples[n - 1]))
  {
    // Only the last two iterations matter: each poll lowers the first flag
    // and records its own sample, so the one before the last left behind
    // exactly what the last one takes its deltas from.
    var n := |samples|;
    var cur := samples[n - 1];
    var d0 := Run(StartDisplay(t0), samples[..n - 1]);
    assert Run(StartDisplay(t0), samples) == Poll(d0, cur.varz, cur.now);
    if n == 1 {
      assert samples[..0] == [];
      assert d0 == StartDisplay(t0);
    } else {
      var before := samples[..n - 1];
      assert before[|before| - 1] == samples[n - 2];
      assert !d0.first && d0.last == CountersOf(samples[n - 2].varz) && d0.pollTime == samples[n - 2].now;
    }
  }

  /** Counters that do not shrink between samples give the plain,
      non-negative difference: no int64 wrap-around can occur. */
  lemma GrowingCountersGiveExactDeltas(prev: Sample, cur: Sample)
    requires 0 <= prev.varz.inMsgs <= cur.varz.inMsgs && 0 <= prev.varz.outMsgs <= cur.varz.outMsgs
    requires 0 <= prev.varz.inBytes <= cur.varz.inBytes && 0 <= prev.varz.outBytes <= cur.varz.outBytes
    ensures var r := DeltaRates(prev, cur);
      && r.inMsgs.delta == cur.varz.inMsgs - prev.varz.inMsgs >= 0
      && r.outMsgs.delta == cur.varz.outMsgs - prev.varz.outMsgs >= 0
      && r.inBytes.delta == cur.varz.inBytes - prev.varz.inBytes >= 0
      && r.outBytes.delta == cur.varz.outBytes - prev.varz.outBytes >= 0
  {
    SubOfCountersIsExact(cur.varz.inMsgs, prev.varz.inMsgs);
    SubOfCountersIsExact(cur.varz.outMsgs, prev.varz.outMsgs);
    SubOfCountersIsExact(cur.varz.inBytes, prev.varz.inBytes);
    SubOfCountersIsExact(cur.varz.outBytes, prev.varz.outBytes);
  }
}
