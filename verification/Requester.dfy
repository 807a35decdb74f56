/** The streaming requester: its latency histogram and its reconnect loop. */
module Requester {
  import opened Wrappers

  // ----- statistics ---------------------------------------------------------------------

  /** How many latencies lie at or below an edge. */
  ghost function AtOrBelow(latencies: seq<real>, edge: real): nat {
    if latencies == [] then 0
    else AtOrBelow(latencies[..|latencies| - 1], edge) + if latencies[|latencies| - 1] <= edge then 1 else 0
  }

  ghost function Sum(latencies: seq<real>): real {
    if latencies == [] then 0.0 else Sum(latencies[..|latencies| - 1]) + latencies[|latencies| - 1]
  }

  ghost predicate Rising(edges: seq<real>) { forall i, j :: 0 <= i < j < |edges| ==> edges[i] <= edges[j] }

  class RoundTripStats {
    const buckets: seq<real>
    var total: nat
    var failures: nat
    var sumMs: real
    const hits: array<nat>
    /** Every latency recorded so far. */
    ghost var latencies: seq<real>

    ghost predicate Valid()
      reads this, hits
    {
      && hits.Length == |buckets|
      && total == |latencies| + failures
      && sumMs == Sum(latencies)
      && forall i :: 0 <= i < |buckets| ==> hits[i] == AtOrBelow(latencies, buckets[i])
    }

    constructor (edges: seq<real>)
      ensures Valid() && fresh(hits) && buckets == edges && latencies == [] && failures == 0
    {
      buckets, total, failures, sumMs, latencies := edges, 0, 0, 0.0, [];
      hits := new nat[|edges|](_ => 0);
    }

    /** `total - failures`. */
    function Successes(): nat
      requires Valid()
      reads this, hits
      ensures Successes() == |latencies|
    {
      total - failures
    }

    method RecordSuccess(latencyMs: real)
      requires Valid()
      modifies this, hits
      ensures Valid() && latencies == old(latencies) + [latencyMs] && failures == old(failures)
    {
      total := total + 1;
      sumMs := sumMs + latencyMs;
      latencies := latencies + [latencyMs];
      assert latencies[..|latencies| - 1] == old(latencies);
      for i := 0 to |buckets|
        invariant total == |latencies| + failures && sumMs == Sum(latencies) && failures == old(failures)
        invariant latencies == old(latencies) + [latencyMs]
        invariant forall k :: 0 <= k < i ==> hits[k] == AtOrBelow(latencies, buckets[k])
        invariant forall k :: i <= k < |buckets| ==> hits[k] == AtOrBelow(old(latencies), buckets[k])
      {
        assert latencies[..|latencies| - 1] == old(latencies);
        if latencyMs <= buckets[i] {
          hits[i] := hits[i] + 1;
        }
      }
    }

    method RecordFailure()
      requires Valid()
      modifies this
      ensures Valid() && latencies == old(latencies) && failures == old(failures) + 1
    {
      total, failures := total + 1, failures + 1;
    }
  }

  /** What the exposition text shows: the buckets, `+Inf`, the sum and the count. */
  datatype Histogram = Histogram(buckets: seq<nat>, inf: nat, sum: real, count: nat)

  method RenderProm(stats: RoundTripStats) returns (h: Histogram)
    requires stats.Valid()
    ensures h == Histogram(stats.hits[..], |stats.latencies|, Sum(stats.latencies), |stats.latencies|)
    ensures |h.buckets| == |stats.buckets|
    ensures forall i :: 0 <= i < |h.buckets| ==> h.buckets[i] == |Within(stats.latencies, stats.buckets[i])| <= h.inf == h.count
    ensures Rising(stats.buckets) ==> forall i, j :: 0 <= i < j < |h.buckets| ==> h.buckets[i] <= h.buckets[j]
  {
    h := Histogram(stats.hits[..], stats.Successes(), stats.sumMs, stats.Successes());
    forall i | 0 <= i < |h.buckets| ensures h.buckets[i] == |Within(stats.latencies, stats.buckets[i])| <= h.inf {
      AtMostAll(stats.latencies, stats.buckets[i]);
      CountsWithin(stats.latencies, stats.buckets[i]);
    }
    forall i, j | Rising(stats.buckets) && 0 <= i < j < |h.buckets| ensures h.buckets[i] <= h.buckets[j] {
      MoreAtHigherEdge(stats.latencies, stats.buckets[i], stats.buckets[j]);
    }
  }

  /** The latencies no greater than an edge, by their place in the run. */
  ghost function Within(latencies: seq<real>, edge: real): set<nat> {
    set k: nat | k < |latencies| && latencies[k] <= edge
  }

  lemma {:induction false} CountsWithin(latencies: seq<real>, edge: real)
    ensures AtOrBelow(latencies, edge) == |Within(latencies, edge)|
  {
    if latencies == [] {
      assert Within(latencies, edge) == {};
    } else {
      var n := |latencies| - 1;
      CountsWithin(latencies[..n], edge);
      assert Within(latencies, edge) == Within(latencies[..n], edge) + if latencies[n] <= edge then {n} else {};
    }
  }

  lemma {:induction false} AtMostAll(latencies: seq<real>, edge: real)
    ensures AtOrBelow(latencies, edge) <= |latencies|
  {
    if latencies != [] {
      AtMostAll(latencies[..|latencies| - 1], edge);
    }
  }

  lemma {:induction false} MoreAtHigherEdge(latencies: seq<real>, low: real, high: real)
    requires low <= high
    ensures AtOrBelow(latencies, low) <= AtOrBelow(latencies, high)
  {
    if latencies != [] {
      MoreAtHigherEdge(latencies[..|latencies| - 1], low, high);
    }
  }

  // ----- the loop -----------------------------------------------------------------------

  const RECONNECT_REASONS: set<int> := {2009, 2018, 2019, 2059, 2161, 2162, 2202, 2203}

  predicate IsReconnectable(reason: int) { reason in RECONNECT_REASONS }

  /** The answer of one MQ call: a round-trip time (where it matters), or an MQI reason. */
  datatype Answer = Good(ms: real) | Failed(reason: int)

  /** The MQ calls, in order. Connections are numbered. */
  datatype Call =
    | Connect(conn: nat, answer: Answer)
    | Put(conn: nat, answer: Answer)
    | Get(conn: nat, answer: Answer)
    | Disconnect(conn: nat)

  predicate Uses(c: Call, conn: nat) { (c.Put? || c.Get?) && c.conn == conn }

  predicate Breaks(c: Call, conn: nat) { Uses(c, conn) && c.answer.Failed? && IsReconnectable(c.answer.reason) }

  /** The connection was made and never failed with a reconnect reason nor was dropped. */
  ghost predicate Alive(log: seq<Call>, conn: nat) {
    && (exists k :: 0 <= k < |log| && log[k].Connect? && log[k].conn == conn && log[k].answer.Good?)
    && (forall k :: 0 <= k < |log| ==> !Breaks(log[k], conn) && log[k] != Disconnect(conn))
  }

  /** Every put and get is on a connection that was alive just before it. */
  ghost predicate OnlyAlive(log: seq<Call>) {
    forall k :: 0 <= k < |log| && (log[k].Put? || log[k].Get?) ==> Alive(log[..k], log[k].conn)
  }

  /** The reasons that leave a connection dead: connection broken, bad connection or object
      handle, queue manager not available, quiescing or stopping, connection quiescing or
      stopping. */
  ghost predicate Dead(reason: int) {
    || reason == 2009 || reason == 2018 || reason == 2019 || reason == 2059
    || reason == 2161 || reason == 2162 || reason == 2202 || reason == 2203
  }

  ghost predicate Killed(answer: Answer) { answer.Failed? && Dead(answer.reason) }

  lemma {:induction false} KilledIff(answer: Answer)
    ensures Killed(answer) <==> answer.Failed? && IsReconnectable(answer.reason)
  {
  }

  /** No put or get comes after a call that left the same connection dead. */
  ghost predicate NeverOnABrokenConnection(log: seq<Call>) {
    forall j, k :: 0 <= j < k < |log| && (log[j].Put? || log[j].Get?) && Killed(log[j].answer) ==> !Uses(log[k], log[j].conn)
  }

  lemma {:induction false} AliveIsUnbroken(log: seq<Call>)
    requires OnlyAlive(log)
    ensures NeverOnABrokenConnection(log)
  {
    hide IsReconnectable, Killed;
    forall j, k | 0 <= j < k < |log| && (log[j].Put? || log[j].Get?) && Killed(log[j].answer) ensures !Uses(log[k], log[j].conn) {
      KilledIff(log[j].answer);
      assert log[..k][j] == log[j];
    }
  }

  // ----- which call follows which -------------------------------------------------------

  /** After an attempt on a connection: a dead one is dropped, any other is used again, or
      dropped when the run is over. */
  ghost predicate After(conn: nat, answer: Answer, next: Call, over: bool) {
    if Killed(answer) then next == Disconnect(conn)
    else (next.Put? && next.conn == conn) || (over && next == Disconnect(conn))
  }

  ghost predicate Follows(c: Call, next: Call, over: bool) {
    match c
    case Connect(conn, answer) => if answer.Good? then next.Put? && next.conn == conn else next.Connect?
    case Put(conn, answer) => if answer.Good? then next.Get? && next.conn == conn else After(conn, answer, next, over)
    case Get(conn, answer) => After(conn, answer, next, over)
    case Disconnect(_) => next.Connect?
  }

  /** The calls of a run, over or not: they begin with a connect, and each follows the one
      before it. */
  ghost predicate Lawful(log: seq<Call>, over: bool) {
    && (log != [] ==> log[0].Connect?)
    && forall k :: 0 < k < |log| ==> Follows(log[k - 1], log[k], over && k + 1 == |log|)
  }

  ghost predicate Fits(log: seq<Call>, c: Call, over: bool) {
    if log == [] then c.Connect? else Follows(log[|log| - 1], c, over)
  }

  lemma {:induction false} LawfulMore(log: seq<Call>, c: Call, over: bool)
    requires Lawful(log, false) && Fits(log, c, over)
    ensures Lawful(log + [c], over)
  {
    hide Follows;
    var all := log + [c];
    forall k | 0 < k < |all| ensures Follows(all[k - 1], all[k], over && k + 1 == |all|) {
      if k < |log| {
        assert all[k - 1] == log[k - 1] && all[k] == log[k];
      } else {
        assert all[k - 1] == log[|log| - 1] && all[k] == c;
      }
    }
  }

  lemma {:induction false} LawfulEnd(log: seq<Call>)
    requires Lawful(log, false)
    ensures Lawful(log, true)
  {
    forall k | 0 < k < |log| ensures Follows(log[k - 1], log[k], k + 1 == |log|) {
      assert Follows(log[k - 1], log[k], false);
    }
  }

  /** Connection numbers below this one have been given out. */
  ghost predicate Numbered(log: seq<Call>, next: nat) { forall c :: c in log ==> c.conn < next }

  lemma {:induction false} NumberedMore(log: seq<Call>, c: Call, next: nat)
    requires Numbered(log, next) && c.conn < next
    ensures Numbered(log + [c], next)
  {
  }

  lemma {:induction false} StoppedAt(log: seq<Call>, c: Call)
    requires (c.Put? && c.answer.Failed?) || c.Get?
    ensures Stopped(log + [c], Some(c.conn), c.answer)
  {
  }

  /** Where an attempt stopped: the connect failed, or the connection was used. */
  ghost predicate Stopped(log: seq<Call>, qmgr: Option<nat>, answer: Answer) {
    && log != [] && !log[|log| - 1].Disconnect? && log[|log| - 1].answer == answer
    && (qmgr.None? ==> log[|log| - 1].Connect? && answer.Failed?)
    && (qmgr.Some? ==> Uses(log[|log| - 1], qmgr.value) && (log[|log| - 1].Put? ==> answer.Failed?))
  }

  /** Between two attempts: there is a connection exactly when the last one left it usable. */
  ghost predicate Resting(log: seq<Call>, qmgr: Option<nat>) {
    if log == [] then qmgr.None?
    else
      var last := log[|log| - 1];
      if last.Disconnect? then qmgr.None? else Stopped(log, qmgr, last.answer) && (qmgr.Some? ==> !Killed(last.answer))
  }

  /** What fits next between two attempts. */
  lemma {:induction false} RestingFits(log: seq<Call>, qmgr: Option<nat>)
    requires Resting(log, qmgr)
    ensures qmgr.None? ==> forall conn, answer :: Fits(log, Connect(conn, answer), false)
    ensures qmgr.Some? ==> (forall answer :: Fits(log, Put(qmgr.value, answer), false)) && Fits(log, Disconnect(qmgr.value), true)
  {
  }

  /** A dead connection is dropped before the next attempt; any other is kept. */
  lemma {:induction false} StoppedFits(log: seq<Call>, qmgr: Option<nat>, answer: Answer)
    requires Stopped(log, qmgr, answer)
    ensures qmgr.Some? && Killed(answer) ==> Fits(log, Disconnect(qmgr.value), false)
    ensures qmgr.None? || !Killed(answer) ==> Resting(log, qmgr)
  {
  }

  lemma {:induction false} UsedFits(log: seq<Call>, c: Call, next: Answer)
    requires (c.Connect? || c.Put?) && c.answer.Good?
    ensures c.Connect? ==> Fits(log + [c], Put(c.conn, next), false)
    ensures c.Put? ==> Fits(log + [c], Get(c.conn, next), false)
  {
  }

  lemma {:induction false} OnlyAliveMore(log: seq<Call>, c: Call)
    requires OnlyAlive(log) && (c.Put? || c.Get? ==> Alive(log, c.conn))
    ensures OnlyAlive(log + [c])
  {
    var all := log + [c];
    forall k | 0 <= k < |all| && (all[k].Put? || all[k].Get?) ensures Alive(all[..k], all[k].conn) {
      if k < |log| {
        assert all[..k] == log[..k] && all[k] == log[k];
      } else {
        assert all[..k] == log;
      }
    }
  }

  lemma {:induction false} StaysAlive(log: seq<Call>, c: Call, conn: nat)
    requires Alive(log, conn) && !Breaks(c, conn) && c != Disconnect(conn)
    ensures Alive(log + [c], conn)
  {
    var k :| 0 <= k < |log| && log[k].Connect? && log[k].conn == conn && log[k].answer.Good?;
    assert (log + [c])[k] == log[k];
  }

  lemma {:induction false} Fresh(log: seq<Call>, conn: nat, ms: real)
    requires forall c :: c in log ==> c.conn < conn
    ensures Alive(log + [Connect(conn, Good(ms))], conn)
  {
    var all := log + [Connect(conn, Good(ms))];
    assert all[|log|] == Connect(conn, Good(ms));
    forall k | 0 <= k < |all| ensures !Breaks(all[k], conn) && all[k] != Disconnect(conn) {
      assert k < |log| ==> all[k] in log;
    }
  }

  /** The round-trip times of the replies received, in order. */
  ghost function Replies(log: seq<Call>): seq<real> {
    if log == [] then []
    else
      var c := log[|log| - 1];
      Replies(log[..|log| - 1]) + if c.Get? && c.answer.Good? then [c.answer.ms] else []
  }

  ghost predicate AllGood(log: seq<Call>) { forall c :: c in log && !c.Disconnect? ==> c.answer.Good? }

  lemma {:induction false} RepliesMore(log: seq<Call>, c: Call)
    ensures Replies(log + [c]) == Replies(log) + if c.Get? && c.answer.Good? then [c.answer.ms] else []
    ensures AllGood(log + [c]) <==> AllGood(log) && (c.Disconnect? || c.answer.Good?)
  {
    assert (log + [c])[..|log|] == log;
  }

  class Client {
    /** The answer to the n-th MQ call. */
    const world: nat -> Answer
    const stats: RoundTripStats
    var calls: nat
    var next: nat
    var qmgr: Option<nat>
    var log: seq<Call>

    ghost predicate Valid()
      reads this, stats, stats.hits
    {
      && stats.Valid() && OnlyAlive(log)
      && Numbered(log, next)
      && (qmgr.Some? ==> Alive(log, qmgr.value))
      && stats.latencies == Replies(log)
      && (stats.failures == 0 <==> AllGood(log))
    }

    /** Between two attempts of a run. */
    ghost predicate Running()
      reads this
    {
      Lawful(log, false) && Resting(log, qmgr)
    }

    constructor (w: nat -> Answer, s: RoundTripStats)
      requires s.Valid() && s.total == 0
      ensures Valid() && Running() && world == w && stats == s && log == []
    {
      world, stats, calls, next, qmgr, log := w, s, 0, 0, None, [];
    }

    /** One MQ call. */
    method Ask(c: Call) returns (answer: Answer)
      requires !c.Disconnect? && c.answer == world(calls)
      requires OnlyAlive(log) && (c.Put? || c.Get? ==> Alive(log, c.conn))
      requires Lawful(log, false) && Fits(log, c, false)
      modifies this`log, this`calls
      ensures answer == c.answer && log == old(log) + [c] && OnlyAlive(log) && Lawful(log, false)
      ensures Replies(log) == Replies(old(log)) + if c.Get? && c.answer.Good? then [c.answer.ms] else []
      ensures AllGood(log) <==> AllGood(old(log)) && answer.Good?
      ensures !c.Connect? && !(answer.Failed? && IsReconnectable(answer.reason)) ==> Alive(log, c.conn)
    {
      OnlyAliveMore(log, c);
      RepliesMore(log, c);
      LawfulMore(log, c, false);
      if !c.Connect? && !(c.answer.Failed? && IsReconnectable(c.answer.reason)) {
        StaysAlive(log, c, c.conn);
      }
      answer := c.answer;
      log, calls := log + [c], calls + 1;
    }

    /** Best-effort teardown of the current connection. */
    method DropConnection()
      requires OnlyAlive(log) && Numbered(log, next)
      requires qmgr.Some? ==> qmgr.value < next
      modifies this`log, this`qmgr
      ensures qmgr == None && OnlyAlive(log) && Numbered(log, next)
      ensures Replies(log) == Replies(old(log)) && (AllGood(log) <==> AllGood(old(log)))
      ensures log == if old(qmgr).Some? then old(log) + [Disconnect(old(qmgr).value)] else old(log)
    {
      if qmgr.Some? {
        OnlyAliveMore(log, Disconnect(qmgr.value));
        RepliesMore(log, Disconnect(qmgr.value));
        log := log + [Disconnect(qmgr.value)];
      }
      qmgr := None;
    }

    /** Makes the connection. */
    method Reconnect() returns (answer: Answer)
      requires Valid() && Running() && qmgr == None
      modifies this`calls, this`next, this`qmgr, this`log
      ensures log == old(log) + [Connect(old(next), answer)] && next == old(next) + 1
      ensures qmgr == if answer.Good? then Some(old(next)) else None
      ensures OnlyAlive(log) && (qmgr.Some? ==> Alive(log, qmgr.value)) && Lawful(log, false)
      ensures Replies(log) == Replies(old(log)) && (AllGood(log) <==> AllGood(old(log)) && answer.Good?)
    {
      hide Alive, OnlyAlive, Replies, AllGood, IsReconnectable, RoundTripStats.Valid, Lawful, Fits, Resting;
      RestingFits(log, qmgr);
      answer := Ask(Connect(next, world(calls)));
      if answer.Good? {
        Fresh(old(log), next, answer.ms);
        qmgr := Some(next);
      }
      next := next + 1;
    }

    /** Puts a request and gets its reply. */
    method Exchange(conn: nat) returns (answer: Answer)
      requires OnlyAlive(log) && Numbered(log, next) && Alive(log, conn)
      requires Lawful(log, false) && Fits(log, Put(conn, world(calls)), false)
      modifies this`calls, this`log
      ensures old(log) <= log && OnlyAlive(log) && Numbered(log, next)
      ensures Replies(log) == Replies(old(log)) + if answer.Good? then [answer.ms] else []
      ensures AllGood(log) <==> AllGood(old(log)) && answer.Good?
      ensures conn < next && Lawful(log, false) && Stopped(log, Some(conn), answer)
      ensures !(answer.Failed? && IsReconnectable(answer.reason)) ==> Alive(log, conn)
    {
      hide *;
      AliveIsNumbered(log, conn, next);
      var put := Put(conn, world(calls));
      answer := Ask(put);
      NumberedMore(old(log), put, next);
      if answer.Failed? {
        StoppedAt(old(log), put);
        return;
      }
      UsedFits(old(log), put, world(calls));
      ghost var before := log;
      var get := Get(conn, world(calls));
      answer := Ask(get);
      NumberedMore(before, get, next);
      StoppedAt(before, get);
    }

    /** The `try` block: connect if need be, put, and get the reply. */
    method RoundTrip() returns (answer: Answer)
      requires Valid() && Running()
      modifies this`calls, this`next, this`qmgr, this`log
      ensures old(log) <= log && OnlyAlive(log) && Numbered(log, next)
      ensures Replies(log) == Replies(old(log)) + if answer.Good? then [answer.ms] else []
      ensures AllGood(log) <==> AllGood(old(log)) && answer.Good?
      ensures qmgr.Some? ==> qmgr.value < next
      ensures Lawful(log, false) && Stopped(log, qmgr, answer)
      ensures qmgr.Some? && !(answer.Failed? && IsReconnectable(answer.reason)) ==> Alive(log, qmgr.value)
    {
      hide Alive, OnlyAlive, Replies, AllGood, IsReconnectable, RoundTripStats.Valid, Lawful, Fits, Resting;
      RestingFits(log, qmgr);
      if qmgr == None {
        answer := Reconnect();
        if answer.Failed? {
          return;
        }
        UsedFits(old(log), log[|log| - 1], world(calls));
      }
      answer := Exchange(qmgr.value);
    }

    /** One pass of the loop. */
    method Pass()
      requires Valid() && Running()
      modifies this, stats, stats.hits
      ensures Valid() && Running() && stats.total == old(stats.total) + 1 && old(log) <= log
      ensures NeverOnABrokenConnection(log)
    {
      hide Replies, AllGood, IsReconnectable, Lawful, Fits, Stopped, Killed;
      var answer := RoundTrip();
      KilledIff(answer);
      StoppedFits(log, qmgr, answer);
      match answer {
        case Good(ms) =>
          stats.RecordSuccess(ms);
        case Failed(reason) =>
          stats.RecordFailure();
          if IsReconnectable(reason) {
            if qmgr.Some? {
              LawfulMore(log, Disconnect(qmgr.value), false);
            }
            DropConnection();
          }
      }
      AliveIsUnbroken(log);
    }

    /** Any number of passes: what holds at every point of a run, the endless one included. */
    method Passes(n: nat)
      requires Valid() && Running()
      modifies this, stats, stats.hits
      ensures Valid() && Running() && stats.total == old(stats.total) + n
    {
      for i := 0 to n
        invariant Valid() && Running() && stats.total == old(stats.total) + i
      {
        Pass();
      }
    }

    /** A bounded run, from fresh statistics to the exit code. */
    method Run(count: int) returns (code: int)
      requires Valid() && Running() && stats.total == 0 && count != 0
      modifies this, stats, stats.hits
      ensures Valid() && qmgr == None && NeverOnABrokenConnection(log)
      ensures stats.total == if count > 0 then count else 0
      ensures Lawful(log, true)
      ensures code == 0 <==> AllGood(log)
      ensures code == 0 <==> |stats.latencies| == stats.total
    {
      hide Alive, OnlyAlive, Replies, AllGood, Lawful, Fits, Resting, NeverOnABrokenConnection;
      if count > 0 {
        Passes(count);
      }
      RestingFits(log, qmgr);
      if qmgr.Some? {
        AliveIsNumbered(log, qmgr.value, next);
        LawfulMore(log, Disconnect(qmgr.value), true);
      } else {
        LawfulEnd(log);
      }
      DropConnection();
      AliveIsUnbroken(log);
      code := if stats.failures == 0 then 0 else 1;
    }
  }

  lemma {:induction false} AliveIsNumbered(log: seq<Call>, conn: nat, next: nat)
    requires Alive(log, conn) && Numbered(log, next)
    ensures conn < next
  {
    var k :| 0 <= k < |log| && log[k].Connect? && log[k].conn == conn && log[k].answer.Good?;
    assert log[k] in log;
  }
}
