/** Guest probes over multiplexed ssh, running concurrently: the fallback to plain ssh under
    every interleaving. */
module SshMux {

  /** Where a probe is between two shared-state accesses or two commands. */
  datatype Pc =
    | Begun
    | Multiplexing    // it saw the flag up
    | Connecting      // the control directory is private; the multiplexed ssh comes next
    | FallingBack     // a mux failure; the flag comes down next
    | Plain           // the plain ssh comes next
    | Reached         // the multiplexed ssh worked; the master is recorded next
    | Finished

  /** One probe: how often it ran ssh each way, whether a mux failure struck it, whether it
      began after the flag fell, and whether it ended with an error. */
  datatype Probe = Probe(guest: string, pc: Pc, mux: nat, plain: nat, muxFailed: bool, late: bool, error: bool)

  /** `queued` notes wait for the sampler, `noted` were drained. */
  datatype State = State(muxOk: bool, queued: nat, noted: nat, falls: nat, masters: set<string>, probes: map<nat, Probe>)

  ghost predicate Init(s: State) { s == State(true, 0, 0, 0, {}, map[]) }

  /** What the outside world does to a command. */
  datatype Outcome = Works | MuxFails | OtherError

  datatype Event =
    | Begin(id: nat, guest: string)
    | Advance(id: nat, outcome: Outcome)
    | Drain

  function Move(s: State, id: nat, p: Probe): State { s.(probes := s.probes[id := p]) }

  /** One atomic step of one probe, or of the sampler draining notes. */
  ghost predicate Next(s: State, e: Event, t: State) {
    match e
    case Begin(id, guest) => id !in s.probes && t == Move(s, id, Probe(guest, Begun, 0, 0, false, !s.muxOk, false))
    case Drain => t == s.(queued := 0, noted := s.noted + s.queued)
    case Advance(id, outcome) => id in s.probes && s.probes[id].pc != Finished && t == AdvanceTo(s, id, outcome)
  }

  /** The probe's own part of a step. */
  function Moved(p: Probe, muxOk: bool, outcome: Outcome): Probe {
    match p.pc
    case Begun => p.(pc := if muxOk then Multiplexing else Plain)
    // the control directory: an error there counts as a mux failure
    case Multiplexing => if outcome == Works then p.(pc := Connecting) else p.(pc := FallingBack, muxFailed := true)
    case Connecting => (
      var ran := p.(mux := p.mux + 1);
      match outcome
      case Works => ran.(pc := Reached)
      case MuxFails => ran.(pc := FallingBack, muxFailed := true)
      case OtherError => ran.(pc := Finished, error := true))
    case FallingBack => p.(pc := Plain)
    case Plain => p.(pc := Finished, plain := p.plain + 1, error := outcome != Works)
    case Reached | Finished => p.(pc := Finished)
  }

  /** Falling back takes the flag down under the lock, unless it is down already. */
  function AdvanceTo(s: State, id: nat, outcome: Outcome): State
    requires id in s.probes
  {
    var p := s.probes[id];
    var t := Move(s, id, Moved(p, s.muxOk, outcome));
    if p.pc == FallingBack && s.muxOk then t.(muxOk := false, queued := s.queued + 1, falls := s.falls + 1)
    else if p.pc == Reached then t.(masters := s.masters + {p.guest})
    else t
  }

  /** A run: states with the events between them. */
  ghost predicate Run(states: seq<State>, events: seq<Event>) {
    && |states| == |events| + 1 && Init(states[0])
    && forall i :: 0 <= i < |events| ==> Next(states[i], events[i], states[i + 1])
  }

  // ----- the invariant ------------------------------------------------------------------

  ghost predicate ProbeOk(p: Probe, muxOk: bool) {
    && p.mux <= 1 && p.plain <= 1
    && (p.plain == 1 ==> p.pc == Finished)
    && (p.pc in {Begun, Multiplexing, Connecting} ==> p.mux == 0 && p.plain == 0 && !p.muxFailed && !p.error)
    && (p.pc == FallingBack ==> p.plain == 0 && p.muxFailed)
    && (p.pc == Plain ==> p.plain == 0 && (p.muxFailed || p.mux == 0) && !muxOk)
    && (p.pc == Reached ==> p.mux == 1 && p.plain == 0 && !p.muxFailed && !p.error)
    && (p.pc == Finished ==> if p.muxFailed then p.plain == 1 else p.mux + p.plain == 1)
    && (p.late ==> !muxOk && p.mux == 0 && !p.muxFailed && p.pc in {Begun, Plain, Finished})
    && (p.plain == 1 ==> !muxOk)
  }

  ghost predicate Inv(s: State) {
    && s.falls == s.queued + s.noted
    && s.falls == (if s.muxOk then 0 else 1)
    && (forall id :: id in s.probes ==> ProbeOk(s.probes[id], s.muxOk))
    && (forall g :: g in s.masters ==> exists id :: id in s.probes && s.probes[id].guest == g && Connected(s.probes[id]))
    && (forall id :: id in s.probes && Connected(s.probes[id]) && s.probes[id].pc == Finished ==> s.probes[id].guest in s.masters)
  }

  /** Its multiplexed ssh worked. */
  predicate Connected(p: Probe) { p.mux == 1 && !p.muxFailed && !p.error }

  lemma {:induction false} StepKeeps(s: State, e: Event, t: State)
    requires Inv(s) && Next(s, e, t)
    ensures Inv(t)
  {
    hide Connected, Moved;
    match e
    case Begin(id, guest) =>
      assert !Connected(t.probes[id]) by { NotConnected(t.probes[id]); }
      KeepsMasters(s, t, id);
    case Drain =>
    case Advance(id, outcome) =>
      AdvanceKeeps(s, id, outcome, t);
  }

  lemma {:induction false} NotConnected(p: Probe)
    requires p.mux == 0
    ensures !Connected(p)
  {
  }

  lemma {:induction false} KeepsMasters(s: State, t: State, id: nat)
    requires Inv(s) && t.masters == s.masters && id !in s.probes && id in t.probes && !Connected(t.probes[id])
    requires t.probes == s.probes[id := t.probes[id]]
    ensures forall g :: g in t.masters ==> exists i :: i in t.probes && t.probes[i].guest == g && Connected(t.probes[i])
  {
    hide Connected, ProbeOk;
    forall g | g in t.masters ensures exists i :: i in t.probes && t.probes[i].guest == g && Connected(t.probes[i]) {
      var i :| i in s.probes && s.probes[i].guest == g && Connected(s.probes[i]);
      assert t.probes[i] == s.probes[i];
    }
  }

  lemma {:induction false} ProbeStep(p: Probe, muxOk: bool, outcome: Outcome)
    requires ProbeOk(p, muxOk) && p.pc != Finished
    ensures ProbeOk(Moved(p, muxOk, outcome), muxOk && p.pc != FallingBack)
    ensures Connected(p) ==> Connected(Moved(p, muxOk, outcome))
    ensures p.pc == Reached ==> Connected(Moved(p, muxOk, outcome))
    ensures p.pc != Reached && Moved(p, muxOk, outcome).pc == Finished ==> !Connected(Moved(p, muxOk, outcome))
  {
  }

  /** Other probes do not mind the flag falling. */
  lemma {:induction false} FallIsHarmless(p: Probe, muxOk: bool)
    requires ProbeOk(p, muxOk)
    ensures ProbeOk(p, false)
  {
  }

  lemma {:induction false} AdvanceKeeps(s: State, id: nat, outcome: Outcome, t: State)
    requires Inv(s) && id in s.probes && s.probes[id].pc != Finished && t == AdvanceTo(s, id, outcome)
    ensures Inv(t)
  {
    hide ProbeOk, Connected, Moved;
    var p, q := s.probes[id], t.probes[id];
    ProbeStep(p, s.muxOk, outcome);
    assert t.muxOk == (s.muxOk && p.pc != FallingBack);
    forall i | i in t.probes ensures ProbeOk(t.probes[i], t.muxOk) {
      if i != id {
        FallIsHarmless(s.probes[i], s.muxOk);
      }
    }
    assert q.guest == p.guest by { SameGuest(p, s.muxOk, outcome); }
    forall g | g in t.masters ensures exists i :: i in t.probes && t.probes[i].guest == g && Connected(t.probes[i]) {
      if g in s.masters {
        var i :| i in s.probes && s.probes[i].guest == g && Connected(s.probes[i]);
        assert t.probes[i].guest == g && Connected(t.probes[i]);
      } else {
        assert t.probes[id].guest == g && Connected(t.probes[id]);
      }
    }
  }

  lemma {:induction false} SameGuest(p: Probe, muxOk: bool, outcome: Outcome)
    ensures Moved(p, muxOk, outcome).guest == p.guest
  {
  }

  lemma {:induction false} Reachable(states: seq<State>, events: seq<Event>, i: nat)
    requires Run(states, events) && i < |states|
    ensures Inv(states[i])
  {
    hide Inv, Next;
    if i > 0 {
      Reachable(states, events, i - 1);
      StepKeeps(states[i - 1], events[i - 1], states[i]);
    } else {
      StartsWell(states[0]);
    }
  }

  lemma {:induction false} StartsWell(s: State)
    requires Init(s)
    ensures Inv(s)
  {
  }

  // ----- what follows -------------------------------------------------------------------

  /** Once down, the flag stays down. */
  lemma {:induction false} FlagStaysDown(states: seq<State>, events: seq<Event>, i: nat, j: nat)
    requires Run(states, events) && i <= j < |states| && !states[i].muxOk
    ensures !states[j].muxOk
    decreases j
  {
    if i < j {
      FlagStaysDown(states, events, i, j - 1);
      assert Next(states[j - 1], events[j - 1], states[j]);
    }
  }

  /** The flag falls at most once, and with exactly one note, queued or already drained. */
  lemma {:induction false} OneFallOneNote(states: seq<State>, events: seq<Event>, i: nat)
    requires Run(states, events) && i < |states|
    ensures states[i].falls <= 1 && (states[i].falls == 1 <==> !states[i].muxOk)
    ensures states[i].queued + states[i].noted == states[i].falls
  {
    Reachable(states, events, i);
  }

  /** A finished probe ran plain exactly once if it began after the fall or met a mux failure,
      and never twice either way; one that began after the fall never multiplexes. */
  lemma {:induction false} ProbesRunOnce(states: seq<State>, events: seq<Event>, i: nat, id: nat)
    requires Run(states, events) && i < |states| && id in states[i].probes && states[i].probes[id].pc == Finished
    ensures var p := states[i].probes[id];
            && (p.late ==> p.mux == 0 && p.plain == 1)
            && (p.muxFailed ==> p.plain == 1 && p.mux <= 1)
            && (!p.muxFailed ==> p.mux + p.plain == 1)
            && (p.plain == 1 ==> !states[i].muxOk)
  {
    Reachable(states, events, i);
    assert ProbeOk(states[i].probes[id], states[i].muxOk);
  }

  /** `late` is what it says: the flag was down when the probe began. */
  lemma {:induction false} LateMeansAfterTheFall(states: seq<State>, events: seq<Event>, i: nat, j: nat, id: nat)
    requires Run(states, events) && i <= j < |states| && id in states[j].probes
    requires i < |events| && events[i].Begin? && events[i].id == id && i < j
    ensures states[j].probes[id].late == !states[i].muxOk
    decreases j
  {
    assert Next(states[j - 1], events[j - 1], states[j]);
    if i < j - 1 {
      assert Next(states[i], events[i], states[i + 1]);
      StaysKnown(states, events, i + 1, j - 1, id);
      LateMeansAfterTheFall(states, events, i, j - 1, id);
    }
  }

  lemma {:induction false} StaysKnown(states: seq<State>, events: seq<Event>, i: nat, j: nat, id: nat)
    requires Run(states, events) && i <= j < |states| && id in states[i].probes
    ensures id in states[j].probes
    decreases j
  {
    if i < j {
      StaysKnown(states, events, i, j - 1, id);
      assert Next(states[j - 1], events[j - 1], states[j]);
    }
  }

  /** The masters to close are exactly the guests some probe reached by multiplexing. */
  lemma {:induction false} MastersAreReached(states: seq<State>, events: seq<Event>, i: nat)
    requires Run(states, events) && i < |states|
    ensures forall g :: g in states[i].masters ==> exists id :: id in states[i].probes && states[i].probes[id].guest == g && Connected(states[i].probes[id])
    ensures forall id :: id in states[i].probes && Connected(states[i].probes[id]) && states[i].probes[id].pc == Finished ==>
              states[i].probes[id].guest in states[i].masters
  {
    Reachable(states, events, i);
  }

  // ----- what each outcome leads to -----------------------------------------------------

  /** At this event the probe's multiplexed ssh ran, with this outcome. */
  ghost predicate RanMux(states: seq<State>, events: seq<Event>, k: nat, id: nat, outcome: Outcome)
    requires k < |events| && |states| == |events| + 1
  {
    && events[k] == Advance(id, outcome) && id in states[k].probes && id in states[k + 1].probes
    && states[k + 1].probes[id].mux == states[k].probes[id].mux + 1
  }

  ghost predicate RanPlain(states: seq<State>, events: seq<Event>, k: nat, id: nat, outcome: Outcome)
    requires k < |events| && |states| == |events| + 1
  {
    && events[k] == Advance(id, outcome) && id in states[k].probes && id in states[k + 1].probes
    && states[k + 1].probes[id].plain == states[k].probes[id].plain + 1
  }

  /** At this event the probe could not prepare its control directory. */
  ghost predicate NoControl(states: seq<State>, events: seq<Event>, k: nat, id: nat)
    requires k < |events| && |states| == |events| + 1
  {
    && events[k].Advance? && events[k].id == id && events[k].outcome != Works
    && id in states[k].probes && states[k].probes[id].pc == Multiplexing
  }

  ghost predicate FlagFalls(states: seq<State>, k: nat)
    requires k + 1 < |states|
  {
    states[k].muxOk && !states[k + 1].muxOk
  }

  /** Where a probe is from then on. */
  ghost predicate Struck(p: Probe) {
    (p.pc in {FallingBack, Plain} && p.plain == 0) || (p.pc == Finished && p.plain == 1)
  }

  ghost predicate Errored(p: Probe) { p.pc == Finished && p.plain == 0 && p.error }

  ghost predicate Worked(p: Probe) { p.pc in {Reached, Finished} && p.plain == 0 && !p.error }

  ghost predicate Ended(p: Probe, error: bool) { p.pc == Finished && p.plain == 1 && p.error == error }

  /** One step of a run seen by one probe: it is the one that moves, or it stays. */
  lemma {:induction false} ProbeMoves(states: seq<State>, events: seq<Event>, k: nat, id: nat)
    requires Run(states, events) && k < |events| && id in states[k].probes
    ensures id in states[k + 1].probes
    ensures if events[k].Advance? && events[k].id == id
            then states[k].probes[id].pc != Finished
                 && states[k + 1].probes[id] == Moved(states[k].probes[id], states[k].muxOk, events[k].outcome)
            else states[k + 1].probes[id] == states[k].probes[id]
  {
    hide Moved;
    assert Next(states[k], events[k], states[k + 1]);
  }

  lemma {:induction false} ClassesStay(states: seq<State>, events: seq<Event>, i: nat, j: nat, id: nat)
    requires Run(states, events) && i <= j < |states| && id in states[i].probes
    ensures id in states[j].probes
    ensures var p, q := states[i].probes[id], states[j].probes[id];
            && (Struck(p) ==> Struck(q)) && (Errored(p) ==> q == p) && (Worked(p) ==> Worked(q))
            && (Ended(p, true) ==> q == p) && (Ended(p, false) ==> q == p)
    decreases j
  {
    hide Next, Init;
    if i < j {
      ClassesStay(states, events, i, j - 1, id);
      ProbeMoves(states, events, j - 1, id);
    }
  }

  /** A probe whose multiplexed ssh had a mux failure ends after one plain run. */
  lemma {:induction false} MuxFailureRunsPlain(states: seq<State>, events: seq<Event>, k: nat, i: nat, id: nat)
    requires Run(states, events) && k < |events| && k < i < |states| && RanMux(states, events, k, id, MuxFails)
    ensures id in states[i].probes && (states[i].probes[id].pc == Finished ==> states[i].probes[id].plain == 1 && !states[i].muxOk)
  {
    hide Run;
    Reachable(states, events, k);
    assert ProbeOk(states[k].probes[id], states[k].muxOk);
    ProbeMoves(states, events, k, id);
    assert Struck(states[k + 1].probes[id]);
    ClassesStay(states, events, k + 1, i, id);
    Reachable(states, events, i);
    assert ProbeOk(states[i].probes[id], states[i].muxOk);
  }

  /** So does one that could not prepare its control directory. */
  lemma {:induction false} NoControlRunsPlain(states: seq<State>, events: seq<Event>, k: nat, i: nat, id: nat)
    requires Run(states, events) && k < |events| && k < i < |states| && NoControl(states, events, k, id)
    ensures id in states[i].probes && (states[i].probes[id].pc == Finished ==> states[i].probes[id].plain == 1 && !states[i].muxOk)
  {
    hide Run;
    Reachable(states, events, k);
    assert ProbeOk(states[k].probes[id], states[k].muxOk);
    ProbeMoves(states, events, k, id);
    assert Struck(states[k + 1].probes[id]);
    ClassesStay(states, events, k + 1, i, id);
    Reachable(states, events, i);
    assert ProbeOk(states[i].probes[id], states[i].muxOk);
  }

  /** Any other failure of a multiplexed ssh is the probe's own: it ends with an error, without
      a plain run, and no later event of it takes the flag down. */
  lemma {:induction false} OtherErrorEnds(states: seq<State>, events: seq<Event>, k: nat, i: nat, id: nat)
    requires Run(states, events) && k < |events| && k < i < |states| && RanMux(states, events, k, id, OtherError)
    ensures id in states[i].probes && states[i].probes[id].pc == Finished && states[i].probes[id].plain == 0 && states[i].probes[id].error
    ensures states[k].muxOk == states[k + 1].muxOk && (i < |events| ==> !(events[i].Advance? && events[i].id == id))
  {
    hide Run;
    Reachable(states, events, k);
    assert ProbeOk(states[k].probes[id], states[k].muxOk);
    ProbeMoves(states, events, k, id);
    assert Errored(states[k + 1].probes[id]);
    ClassesStay(states, events, k + 1, i, id);
    assert Next(states[k], events[k], states[k + 1]) by { StepOf(states, events, k); }
    if i < |events| {
      ProbeMoves(states, events, i, id);
    }
  }

  lemma {:induction false} StepOf(states: seq<State>, events: seq<Event>, k: nat)
    requires Run(states, events) && k < |events|
    ensures Next(states[k], events[k], states[k + 1])
  {
    hide Next;
  }

  /** One that worked ends without an error and without a plain run. */
  lemma {:induction false} WorkedEnds(states: seq<State>, events: seq<Event>, k: nat, i: nat, id: nat)
    requires Run(states, events) && k < |events| && k < i < |states| && RanMux(states, events, k, id, Works)
    ensures id in states[i].probes && states[i].probes[id].plain == 0 && !states[i].probes[id].error
    ensures states[i].probes[id].pc == Finished ==> states[i].probes[id].guest in states[i].masters
  {
    hide Run;
    Reachable(states, events, k);
    assert ProbeOk(states[k].probes[id], states[k].muxOk);
    ProbeMoves(states, events, k, id);
    assert Worked(states[k + 1].probes[id]);
    ClassesStay(states, events, k + 1, i, id);
    Reachable(states, events, i);
    assert ProbeOk(states[i].probes[id], states[i].muxOk);
  }

  /** A plain run ends the probe, with an error exactly when it did not work. */
  lemma {:induction false} PlainEnds(states: seq<State>, events: seq<Event>, k: nat, i: nat, id: nat, outcome: Outcome)
    requires Run(states, events) && k < |events| && k < i < |states| && RanPlain(states, events, k, id, outcome)
    ensures id in states[i].probes && states[i].probes[id].pc == Finished && (states[i].probes[id].error <==> outcome != Works)
  {
    hide Run;
    Reachable(states, events, k);
    assert ProbeOk(states[k].probes[id], states[k].muxOk);
    ProbeMoves(states, events, k, id);
    assert Ended(states[k + 1].probes[id], outcome != Works);
    ClassesStay(states, events, k + 1, i, id);
  }

  /** A probe that is about to fall back met a mux failure, or could not prepare its control
      directory. */
  lemma {:induction false} FallingBackBecause(states: seq<State>, events: seq<Event>, k: nat, id: nat) returns (j: nat)
    requires Run(states, events) && k < |states| && id in states[k].probes && states[k].probes[id].pc == FallingBack
    ensures j < k && j < |events| && (RanMux(states, events, j, id, MuxFails) || NoControl(states, events, j, id))
    decreases k
  {
    if k > 0 {
      StepOf(states, events, k - 1);
      if id in states[k - 1].probes {
        ProbeMoves(states, events, k - 1, id);
        if events[k - 1].Advance? && events[k - 1].id == id {
          j := k - 1;
        } else {
          j := FallingBackBecause(states, events, k - 1, id);
        }
      }
    }
  }

  /** The flag falls only through such a probe. */
  lemma {:induction false} FlagFallsBecause(states: seq<State>, events: seq<Event>, k: nat) returns (id: nat, j: nat)
    requires Run(states, events) && k < |events| && FlagFalls(states, k)
    ensures events[k].Advance? && events[k].id == id
    ensures j < k && (RanMux(states, events, j, id, MuxFails) || NoControl(states, events, j, id))
  {
    StepOf(states, events, k);
    id := events[k].id;
    j := FallingBackBecause(states, events, k, id);
  }
}
