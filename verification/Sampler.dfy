/** The perf sampler's failure bookkeeping: which probes are noted, and when. */
module Sampler {
  import opened Wrappers

  /** A probe's result; the error is its full text. */
  datatype Event = Failed(key: string, error: string) | Succeeded(key: string)

  datatype Note =
    | Unavailable(key: string, error: string)
    | Recovered(key: string, failures: nat)
    | StillFailing(key: string, failures: nat)

  // ----- the declarative reading --------------------------------------------------------

  /** Consecutive failures of a probe up to now. */
  ghost function Streak(h: seq<Event>, key: string): nat {
    if h == [] then 0
    else
      var e := h[|h| - 1];
      if e.key != key then Streak(h[..|h| - 1], key)
      else if e.Failed? then Streak(h[..|h| - 1], key) + 1
      else 0
  }

  /** The latest error of a failing probe. */
  ghost function Error(h: seq<Event>, key: string): Option<string> {
    if h == [] then None
    else
      var e := h[|h| - 1];
      if e.key != key then Error(h[..|h| - 1], key)
      else if e.Failed? then Some(e.error)
      else None
  }

  /** A failure is noted when its error is new in its outage, a success when it ends one. */
  ghost function NoteFor(h: seq<Event>, e: Event): seq<Note> {
    match e
    case Failed(k, m) => if Error(h, k) == Some(m) then [] else [Unavailable(k, m)]
    case Succeeded(k) => if Streak(h, k) == 0 then [] else [Recovered(k, Streak(h, k))]
  }

  ghost function NotesOf(h: seq<Event>): seq<Note> {
    if h == [] then [] else NotesOf(h[..|h| - 1]) + NoteFor(h[..|h| - 1], h[|h| - 1])
  }

  lemma {:induction false} StreakHasError(h: seq<Event>, key: string)
    ensures Streak(h, key) > 0 <==> Error(h, key).Some?
  {
    if h != [] {
      StreakHasError(h[..|h| - 1], key);
    }
  }

  /** `n` probes of a key failed since its last success. */
  ghost predicate FailedSince(h: seq<Event>, start: nat, key: string, n: nat) {
    && start <= |h|
    && (forall i :: start <= i < |h| && h[i].key == key ==> h[i].Failed?)
    && n == Count(h[start..], key)
  }

  /** `start` is the beginning, or right after a success of the probe. */
  ghost predicate AfterSuccess(h: seq<Event>, start: nat, key: string)
    requires start <= |h|
  {
    start > 0 ==> h[start - 1] == Succeeded(key)
  }

  ghost function Count(h: seq<Event>, key: string): nat {
    if h == [] then 0 else Count(h[..|h| - 1], key) + if h[|h| - 1].key == key then 1 else 0
  }

  lemma {:induction false} NoFailure(h: seq<Event>, key: string)
    ensures FailedSince(h, |h|, key, 0)
  {
    assert h[|h|..] == [];
  }

  lemma {:induction false} OneMoreFailure(h: seq<Event>, e: Event, start: nat, key: string, n: nat)
    requires FailedSince(h, start, key, n) && e != Succeeded(key)
    ensures FailedSince(h + [e], start, key, n + if e.key == key then 1 else 0)
  {
    var all := h + [e];
    assert all[start..] == h[start..] + [e];
    assert all[start..][..|all[start..]| - 1] == h[start..];
    assert forall i :: 0 <= i < |h| ==> all[i] == h[i];
  }

  /** The streak is the number of failures since the last success, or since the beginning. */
  lemma {:induction false} StreakCounts(h: seq<Event>, key: string)
    ensures exists start: nat :: start <= |h| && FailedSince(h, start, key, Streak(h, key)) && AfterSuccess(h, start, key)
  {
    hide FailedSince, Count;
    if h == [] {
      NoFailure(h, key);
      var start: nat := 0;
      assert start <= |h| && FailedSince(h, start, key, Streak(h, key)) && AfterSuccess(h, start, key);
    } else {
      var n := |h| - 1;
      var init, e := h[..n], h[n];
      if e == Succeeded(key) {
        NoFailure(h, key);
        assert FailedSince(h, |h|, key, Streak(h, key)) && AfterSuccess(h, |h|, key);
      } else {
        StreakCounts(init, key);
        var start: nat :| start <= |init| && FailedSince(init, start, key, Streak(init, key)) && AfterSuccess(init, start, key);
        assert h == init + [e];
        OneMoreFailure(init, e, start, key, Streak(init, key));
        assert start > 0 ==> h[start - 1] == init[start - 1];
        assert FailedSince(h, start, key, Streak(h, key)) && AfterSuccess(h, start, key);
      }
    }
  }

  /** An unchanged error is noted once per outage: after a failure, the same failure again,
      with only the same failure of that probe in between, adds no note. */
  lemma {:induction false} NotedOnce(h: seq<Event>, i: nat, key: string, error: string)
    requires i < |h| && h[i] == Failed(key, error)
    requires forall j :: i < j < |h| && h[j].key == key ==> h[j] == Failed(key, error)
    ensures Error(h, key) == Some(error) && NoteFor(h, Failed(key, error)) == []
    decreases |h|
  {
    var n := |h| - 1;
    if i < n {
      NotedOnce(h[..n], i, key, error);
    }
  }

  /** The first failure of an outage is always noted, whatever the error. */
  lemma {:induction false} FirstIsNoted(h: seq<Event>, key: string, error: string)
    requires Streak(h, key) == 0
    ensures NoteFor(h, Failed(key, error)) == [Unavailable(key, error)]
  {
    StreakHasError(h, key);
  }

  /** The latest result of a probe. */
  ghost predicate Latest(h: seq<Event>, e: Event) {
    exists i :: LatestAt(h, e, i)
  }

  ghost predicate LatestAt(h: seq<Event>, e: Event, i: int) {
    0 <= i < |h| && h[i] == e && forall j :: i < j < |h| ==> h[j].key != e.key
  }

  lemma {:induction false} LatestIs(h: seq<Event>, e: Event)
    ensures Latest(h, e) <==> h != [] && if h[|h| - 1].key == e.key then h[|h| - 1] == e else Latest(h[..|h| - 1], e)
  {
    if h != [] {
      var n := |h| - 1;
      if i :| LatestAt(h, e, i) {
        assert i < n ==> LatestAt(h[..n], e, i);
      }
      if h[n] == e {
        assert LatestAt(h, e, n);
      }
      if h[n].key != e.key && Latest(h[..n], e) {
        var i :| LatestAt(h[..n], e, i);
        assert LatestAt(h, e, i);
      }
    }
  }

  lemma {:induction false} ErrorIff(h: seq<Event>, key: string, error: string)
    ensures Error(h, key) == Some(error) <==> Latest(h, Failed(key, error))
  {
    LatestIs(h, Failed(key, error));
    if h != [] {
      ErrorIff(h[..|h| - 1], key, error);
    }
  }

  /** A failure is noted exactly when the probe's latest result was not the same failure: the
      first of an outage, and every change of its error. */
  lemma {:induction false} FailureNotedIff(h: seq<Event>, key: string, error: string)
    ensures NoteFor(h, Failed(key, error)) == if Latest(h, Failed(key, error)) then [] else [Unavailable(key, error)]
  {
    ErrorIff(h, key, error);
  }

  /** A success is noted exactly when the probe's latest result was a failure, with the failures
      since the last success before. */
  lemma {:induction false} SuccessNotedIff(h: seq<Event>, key: string)
    ensures NoteFor(h, Succeeded(key)) != [] <==> exists error :: Latest(h, Failed(key, error))
    ensures NoteFor(h, Succeeded(key)) != [] ==>
              exists start: nat, n :: start <= |h| && FailedSince(h, start, key, n) && AfterSuccess(h, start, key)
                                      && NoteFor(h, Succeeded(key)) == [Recovered(key, n)]
  {
    hide FailedSince, AfterSuccess, Latest;
    StreakHasError(h, key);
    StreakCounts(h, key);
    forall error ensures Error(h, key) == Some(error) <==> Latest(h, Failed(key, error)) {
      ErrorIff(h, key, error);
    }
    if Error(h, key).Some? {
      assert Latest(h, Failed(key, Error(h, key).value));
    }
  }

  // ----- the bookkeeping ----------------------------------------------------------------

  class Sampler {
    var failCount: map<string, nat>
    var lastError: map<string, string>
    var notes: seq<Note>
    /** Every probe result so far. */
    ghost var history: seq<Event>

    /** Both maps hold exactly the failing probes, with their streak and latest error. */
    ghost predicate Valid()
      reads this
    {
      && failCount.Keys == lastError.Keys
      && (forall k :: k in failCount <==> Streak(history, k) > 0)
      && (forall k :: k in failCount ==> failCount[k] == Streak(history, k) && Error(history, k) == Some(lastError[k]))
      && notes == NotesOf(history)
    }

    constructor ()
      ensures Valid() && history == []
    {
      failCount, lastError, notes, history := map[], map[], [], [];
    }

    method Fail(key: string, error: string)
      requires Valid()
      modifies this
      ensures Valid() && history == old(history) + [Failed(key, error)]
    {
      hide Streak, Error, NotesOf;
      StreakHasError(history, key);
      failCount := failCount[key := (if key in failCount then failCount[key] else 0) + 1];
      if !(key in lastError && lastError[key] == error) {
        lastError := lastError[key := error];
        notes := notes + [Unavailable(key, error)];
      }
      history := history + [Failed(key, error)];
      Appended(old(history), Failed(key, error));
    }

    method Succeed(key: string)
      requires Valid()
      modifies this
      ensures Valid() && history == old(history) + [Succeeded(key)]
    {
      hide Streak, Error, NotesOf;
      if key in lastError {
        var n := failCount[key];
        lastError, failCount := lastError - {key}, failCount - {key};
        notes := notes + [Recovered(key, n)];
      }
      history := history + [Succeeded(key)];
      Appended(old(history), Succeeded(key));
    }

    /** One tick: the host, the sampling VM, and every guest; None is a success. */
    method Tick(
        host: Option<string>, local: Option<string>, guests: seq<(string, Option<string>)>) returns (sampled: seq<string>)
      requires Valid()
      modifies this
      ensures Valid() && history == old(history) + TickEvents(host, local, guests)
      ensures |history| == |old(history)| + 2 + |guests| && old(history) <= history
      ensures Tells(history[|old(history)|], "host", host) && Tells(history[|old(history)| + 1], "vergil-vm", local)
      ensures forall i :: 0 <= i < |guests| ==> Tells(history[|old(history)| + 2 + i], "guest " + guests[i].0, guests[i].1)
      ensures forall g :: g in sampled <==> exists i :: 0 <= i < |guests| && guests[i] == (g, None)
    {
      hide Valid, EventOf, Tells;
      EventsTell(host, local, guests);
      Record("host", host);
      Record("vergil-vm", local);
      sampled := [];
      for i := 0 to |guests|
        invariant Valid() && history == old(history) + TickEvents(host, local, guests[..i])
        invariant forall g :: g in sampled <==> exists j :: 0 <= j < i && guests[j] == (g, None)
      {
        assert guests[..i + 1][..i] == guests[..i];
        Record("guest " + guests[i].0, guests[i].1);
        if guests[i].1 == None {
          sampled := sampled + [guests[i].0];
        }
        assert guests[i] == (guests[i].0, guests[i].1);
      }
      assert guests[..|guests|] == guests;
    }

    method Record(key: string, error: Option<string>)
      requires Valid()
      modifies this
      ensures Valid() && history == old(history) + [EventOf(key, error)]
    {
      match error {
        case Some(m) => Fail(key, m);
        case None => Succeed(key);
      }
    }

    /** Notes every probe still failing, with its exact count, and forgets it. */
    method Stop() returns (still: seq<Note>)
      requires Valid()
      modifies this
      ensures failCount == map[] && lastError == map[] && notes == NotesOf(history) + still && history == old(history)
      ensures forall n :: n in still <==> n.StillFailing? && Streak(history, n.key) == n.failures && n.failures > 0
      ensures forall i, j :: 0 <= i < j < |still| ==> still[i] != still[j]
    {
      still := [];
      var failing, rest := failCount, failCount.Keys;
      failCount, lastError := map[], map[];
      while rest != {}
        invariant rest <= failing.Keys && notes == NotesOf(history) + still && history == old(history)
        invariant failCount == map[] && lastError == map[]
        invariant forall n :: n in still <==> n.StillFailing? && n.key in failing && n.key !in rest && failing[n.key] == n.failures
        invariant forall i, j :: 0 <= i < j < |still| ==> still[i] != still[j]
        decreases rest
      {
        var k :| k in rest;
        rest := rest - {k};
        var note := StillFailing(k, failing[k]);
        assert note !in still;
        notes := notes + [note];
        still := still + [note];
      }
    }
  }

  /** The event is of this probe: a failure with its error, or a success when there is none. */
  ghost predicate Tells(e: Event, key: string, error: Option<string>) {
    e.key == key && (e.Failed? <==> error.Some?) && (e.Failed? ==> e.error == error.value)
  }

  lemma {:induction false} EventsTell(host: Option<string>, local: Option<string>, guests: seq<(string, Option<string>)>)
    ensures var es := TickEvents(host, local, guests);
            && |es| == 2 + |guests| && Tells(es[0], "host", host) && Tells(es[1], "vergil-vm", local)
            && forall i :: 0 <= i < |guests| ==> Tells(es[2 + i], "guest " + guests[i].0, guests[i].1)
  {
    if guests != [] {
      EventsTell(host, local, guests[..|guests| - 1]);
    }
  }

  ghost function EventOf(key: string, error: Option<string>): Event {
    if error.Some? then Failed(key, error.value) else Succeeded(key)
  }

  ghost function TickEvents(
      host: Option<string>, local: Option<string>, guests: seq<(string, Option<string>)>): seq<Event> {
    if guests == [] then [EventOf("host", host), EventOf("vergil-vm", local)]
    else
      var g := guests[|guests| - 1];
      TickEvents(host, local, guests[..|guests| - 1]) + [EventOf("guest " + g.0, g.1)]
  }

  lemma {:induction false} Appended(h: seq<Event>, e: Event)
    ensures forall k :: Streak(h + [e], k) == if e.key != k then Streak(h, k) else if e.Failed? then Streak(h, k) + 1 else 0
    ensures forall k :: Error(h + [e], k) == if e.key != k then Error(h, k) else if e.Failed? then Some(e.error) else None
    ensures NotesOf(h + [e]) == NotesOf(h) + NoteFor(h, e)
  {
    assert (h + [e])[..|h|] == h;
  }
}
