/**
 * Runs of the attendance client and the server (frontend/src/api/attendance.ts): saving, flushing, the server
 * applying a request and the client learning the answer, in any interleaving. A save takes its step when the server
 * applies it or when it is queued, not when the user chooses. A request that the client has given up on may still be
 * applied at any later time.
 */
module AttendanceRuns {

  import opened Wrappers
  import opened Attendance

  type Sheet = map<Key, Status>

  function Get(sheet: Sheet, k: Key): Option<Status> {
    if k in sheet then Some(sheet[k]) else None
  }

  function Says(c: Change, k: Key): Option<Status> {
    if About(c, k) then StatusOf(c.entries, k.member) else None
  }

  /** A change written over a sheet, entry by entry. */
  function Put(sheet: Sheet, event: nat, date: nat, entries: seq<Entry>): Sheet {
    if entries == [] then sheet
    else
      var last := entries[|entries| - 1];
      Put(sheet, event, date, entries[..|entries| - 1])[Key(event, date, last.member) := last.status]
  }

  function PutChange(sheet: Sheet, c: Change): Sheet {
    Put(sheet, c.event, c.date, c.entries)
  }

  /** A sheet without the members a change is about. */
  function Without(sheet: Sheet, c: Change): Sheet {
    map k: Key | k in sheet && Says(c, k).None? :: sheet[k]
  }

  lemma {:induction false} PutStatus(sheet: Sheet, event: nat, date: nat, entries: seq<Entry>, k: Key)
    ensures Get(Put(sheet, event, date, entries), k)
         == if k.event == event && k.date == date && StatusOf(entries, k.member).Some?
            then StatusOf(entries, k.member) else Get(sheet, k)
  {
    if entries != [] {
      PutStatus(sheet, event, date, entries[..|entries| - 1], k);
    }
  }

  lemma PutSays(sheet: Sheet, c: Change)
    ensures forall k: Key :: Get(PutChange(sheet, c), k) == if Says(c, k).Some? then Says(c, k) else Get(sheet, k)
  {
    forall k: Key
      ensures Get(PutChange(sheet, c), k) == if Says(c, k).Some? then Says(c, k) else Get(sheet, k)
    {
      PutStatus(sheet, c.event, c.date, c.entries, k);
    }
  }

  /** The changes a running flush goes through, the one in flight, and whether the server has applied it. */
  datatype Flight = Flight(snapshot: seq<Change>, at: nat, applied: bool)

  /**
   * `last` is what the latest save step wrote, `dropped` what the server refused of that. `lost` are the requests the
   * client has given up on that may still reach the server.
   */
  datatype State = State(queue: seq<Change>, flight: Option<Flight>, sheet: Sheet, last: Sheet, dropped: Sheet,
                         lost: seq<Change>)

  const START: State := State([], None, map[], map[], map[], [])

  datatype Step =
    | QueueSave(change: Change)    // saveAttendance, once the server has proved unreachable
    | DirectSave(change: Change)   // saveAttendance, when the server applies the request
    | StartFlush
    | Apply                        // the server applies the change in flight
    | ApplyLost(i: nat)            // the server applies a request the client has given up on
    | Learn(answer: Answer)        // the flush goes on after its await

  function Begun(snapshot: seq<Change>, at: nat): Option<Flight> {
    if at < |snapshot| then Some(Flight(snapshot, at, false)) else None
  }

  /**
   * The server applies a request before the client learns that it did; a refused request is never applied, an
   * unanswered one may be.
   */
  predicate MayLearn(flight: Flight, answer: Answer) {
    match answer
    case Accepted => flight.applied
    case Rejected => !flight.applied
    case Unreachable => true
  }

  function Learned(s: State, answer: Answer): State
    requires s.flight.Some? && s.flight.value.at < |s.flight.value.snapshot|
  {
    var f := s.flight.value;
    var change := f.snapshot[f.at];
    if !MayLearn(f, answer) then s
    else if answer == Unreachable then s.(flight := None, lost := if f.applied then s.lost else s.lost + [change])
    else
      s.(queue := Acknowledged(s.queue, change),
         flight := Begun(f.snapshot, f.at + 1),
         dropped := if answer == Rejected then PutChange(s.dropped, change) else s.dropped)
  }

  predicate InFlight(s: State) {
    s.flight.Some? && s.flight.value.at < |s.flight.value.snapshot|
  }

  function Next(s: State, step: Step): State {
    match step
    case QueueSave(change) =>
      s.(queue := Enqueued(s.queue, change), last := PutChange(s.last, change), dropped := Without(s.dropped, change),
         lost := s.lost + [change])
    case DirectSave(change) =>
      s.(sheet := PutChange(s.sheet, change), last := PutChange(s.last, change), dropped := Without(s.dropped, change))
    case StartFlush => if s.flight.Some? then s else s.(flight := Begun(s.queue, 0))
    case Apply =>
      if !InFlight(s) || s.flight.value.applied then s
      else
        var f := s.flight.value;
        s.(sheet := PutChange(s.sheet, f.snapshot[f.at]), flight := Some(f.(applied := true)))
    case ApplyLost(i) =>
      if i < |s.lost| then s.(sheet := PutChange(s.sheet, s.lost[i]), lost := s.lost[..i] + s.lost[i + 1..]) else s
    case Learn(answer) => if InFlight(s) then Learned(s, answer) else s
  }

  function Run(s: State, steps: seq<Step>): State
    decreases |steps|
  {
    if steps == [] then s else Run(Next(s, steps[0]), steps[1..])
  }

  /** The client learns of an acceptance only what the server applied, and of a refusal only what it did not. */
  lemma AnswersAreTrue(s: State, f: Flight)
    requires InFlight(s) && s.flight == Some(f)
    ensures !f.applied ==> Next(s, Learn(Accepted)) == s
    ensures f.applied ==> Next(s, Learn(Rejected)) == s
    ensures f.applied ==> Next(s, Learn(Accepted)).queue == Acknowledged(s.queue, f.snapshot[f.at])
    ensures f.applied ==> Next(s, Learn(Accepted)).flight == Begun(f.snapshot, f.at + 1)
    ensures !f.applied ==> Next(s, Learn(Rejected)).queue == Acknowledged(s.queue, f.snapshot[f.at])
    ensures !f.applied ==> Next(s, Learn(Rejected)).flight == Begun(f.snapshot, f.at + 1)
  {
  }

  /** A request given up on may still be applied, unless it was already: no request is applied twice. */
  lemma GivenUpOnce(s: State, f: Flight)
    requires InFlight(s) && s.flight == Some(f)
    ensures var t := Next(s, Learn(Unreachable));
      && t.flight.None? && t.queue == s.queue && t.sheet == s.sheet
      && (f.applied ==> t.lost == s.lost)
      && (!f.applied ==> t.lost == s.lost + [f.snapshot[f.at]])
  {
  }

  // ---------- What every run keeps ----------

  /** Whatever a flush is still to send is still queued, if not with the status of the snapshot. */
  ghost predicate SoundFlight(s: State, f: Flight) {
    && f.at < |f.snapshot| && IsQueue(f.snapshot)
    && forall j: nat, k: Key :: f.at <= j < |f.snapshot| && Says(f.snapshot[j], k).Some? ==> Queued(s.queue, k).Some?
  }

  ghost predicate Sound(s: State) {
    IsQueue(s.queue) && (s.flight.Some? ==> SoundFlight(s, s.flight.value))
  }

  lemma {:induction false} EntryIsStatus(entries: seq<Entry>, member: nat, status: Status)
    requires OncePerMember(entries)
    ensures Entry(member, status) in entries <==> StatusOf(entries, member) == Some(status)
  {
    if entries != [] {
      var n := |entries| - 1;
      EntryIsStatus(entries[..n], member, status);
      assert entries == entries[..n] + [entries[n]];
      if entries[n].member == member {
        MissingMember(entries[..n], member);
      }
    }
  }

  /** Acknowledging, told by what the change says. */
  lemma AcknowledgedSays(queue: seq<Change>, change: Change, k: Key)
    requires IsQueue(queue) && OncePerMember(change.entries)
    ensures Queued(Acknowledged(queue, change), k)
         == if Says(change, k).Some? && Says(change, k) == Queued(queue, k) then None else Queued(queue, k)
  {
    AcknowledgedStatus(queue, change, k);
    if Queued(queue, k).Some? {
      EntryIsStatus(change.entries, k.member, Queued(queue, k).value);
    }
  }

  lemma QueueSaveKeepsSound(s: State, change: Change)
    requires Sound(s)
    ensures Sound(Next(s, QueueSave(change)))
  {
    forall k: Key
      ensures Queued(s.queue, k).Some? ==> Queued(Enqueued(s.queue, change), k).Some?
    {
      EnqueuedStatus(s.queue, change, k);
    }
    EnqueuedStatus(s.queue, change, Key(0, 0, 0));
  }

  lemma StartKeepsSound(s: State)
    requires Sound(s)
    ensures Sound(Next(s, StartFlush))
  {
    forall j: nat, k: Key | j < |s.queue| && Says(s.queue[j], k).Some?
      ensures Queued(s.queue, k).Some?
    {
      QueuedAt(s.queue, j, k);
    }
  }

  lemma LaterStaysQueued(s: State, f: Flight, j: nat, k: Key)
    requires Sound(s) && s.flight == Some(f) && f.at < j < |f.snapshot| && Says(f.snapshot[j], k).Some?
    ensures Queued(Acknowledged(s.queue, f.snapshot[f.at]), k).Some?
  {
    assert !SameOccurrence(f.snapshot[f.at], f.snapshot[j]);
    AcknowledgedSays(s.queue, f.snapshot[f.at], k);
  }

  lemma LearnKeepsSound(s: State, answer: Answer)
    requires Sound(s)
    ensures Sound(Next(s, Learn(answer)))
  {
    var t := Next(s, Learn(answer));
    if InFlight(s) && MayLearn(s.flight.value, answer) && answer != Unreachable {
      var f := s.flight.value;
      AcknowledgedIsPart(s.queue, f.snapshot[f.at]);
      forall j: nat, k: Key | f.at < j < |f.snapshot| && Says(f.snapshot[j], k).Some?
        ensures Queued(t.queue, k).Some?
      {
        LaterStaysQueued(s, f, j, k);
      }
    }
  }

  lemma NextKeepsSound(s: State, step: Step)
    requires Sound(s)
    ensures Sound(Next(s, step))
  {
    match step
    case QueueSave(change) => QueueSaveKeepsSound(s, change);
    case DirectSave(change) =>
    case StartFlush => StartKeepsSound(s);
    case Apply =>
    case ApplyLost(_) =>
    case Learn(answer) => LearnKeepsSound(s, answer);
  }

  /** The queue is one, and what a flush is to send is queued, in every run. */
  lemma {:induction false} RunKeepsSound(s: State, steps: seq<Step>)
    requires Sound(s)
    ensures Sound(Run(s, steps))
    decreases |steps|
  {
    if steps != [] {
      NextKeepsSound(s, steps[0]);
      RunKeepsSound(Next(s, steps[0]), steps[1..]);
    }
  }

  predicate Saves(step: Step, k: Key) {
    (step.QueueSave? || step.DirectSave?) && Says(step.change, k).Some?
  }

  predicate WritesLate(s: State, step: Step, k: Key) {
    step.ApplyLost? && step.i < |s.lost| && Says(s.lost[step.i], k).Some?
  }

  /** The server writes the member past the queue: a save while the queue still holds it, or a request given up. */
  predicate PassesBy(s: State, step: Step, k: Key) {
    (step.DirectSave? && Saves(step, k) && Queued(s.queue, k).Some?) || WritesLate(s, step, k)
  }

  predicate NonePassesBy(s: State, steps: seq<Step>, k: Key)
    decreases |steps|
  {
    steps == [] || (!PassesBy(s, steps[0], k) && NonePassesBy(Next(s, steps[0]), steps[1..], k))
  }

  /** What the flight carries for the member and the server has already applied. */
  function AppliedInFlight(s: State, k: Key): Option<Status> {
    if InFlight(s) && s.flight.value.applied then Says(s.flight.value.snapshot[s.flight.value.at], k) else None
  }

  /** The status saved last is either waiting, or on the server, or was refused. */
  ghost predicate IsKept(s: State, k: Key) {
    && (AppliedInFlight(s, k).Some? ==> Get(s.sheet, k) == AppliedInFlight(s, k))
    && (if Queued(s.queue, k).Some? then Queued(s.queue, k) == Get(s.last, k)
        else Get(s.sheet, k) == Get(s.last, k) || (k in s.dropped && Get(s.dropped, k) == Get(s.last, k)))
  }

  /** What acknowledging the change in flight does to one member. */
  lemma LearnedStatus(s: State, answer: Answer, k: Key)
    requires Sound(s) && InFlight(s) && MayLearn(s.flight.value, answer) && answer != Unreachable
    ensures var t, says := Next(s, Learn(answer)), Says(s.flight.value.snapshot[s.flight.value.at], k);
      && Queued(t.queue, k) == (if says.Some? && says == Queued(s.queue, k) then None else Queued(s.queue, k))
      && AppliedInFlight(t, k) == None && t.sheet == s.sheet && t.last == s.last
      && Get(t.dropped, k) == if answer == Rejected && says.Some? then says else Get(s.dropped, k)
  {
    LearnedState(s, answer);
    LearnedQueue(s, s.flight.value, k);
    PutSays(s.dropped, s.flight.value.snapshot[s.flight.value.at]);
  }

  lemma LearnedState(s: State, answer: Answer)
    requires InFlight(s) && MayLearn(s.flight.value, answer) && answer != Unreachable
    ensures var f := s.flight.value;
      Next(s, Learn(answer)) == s.(
        queue := Acknowledged(s.queue, f.snapshot[f.at]), flight := Begun(f.snapshot, f.at + 1),
        dropped := if answer == Rejected then PutChange(s.dropped, f.snapshot[f.at]) else s.dropped)
  {
  }

  lemma LearnedQueue(s: State, f: Flight, k: Key)
    requires Sound(s) && s.flight == Some(f)
    ensures var says := Says(f.snapshot[f.at], k);
      Queued(Acknowledged(s.queue, f.snapshot[f.at]), k) ==
        if says.Some? && says == Queued(s.queue, k) then None else Queued(s.queue, k)
  {
    AcknowledgedSays(s.queue, f.snapshot[f.at], k);
  }

  lemma NextKeepsStatus(s: State, step: Step, k: Key)
    requires Sound(s) && IsKept(s, k) && !PassesBy(s, step, k)
    ensures IsKept(Next(s, step), k)
  {
    match step
    case QueueSave(change) =>
      EnqueuedStatus(s.queue, change, k);
      PutSays(s.last, change);
    case DirectSave(change) =>
      PutSays(s.sheet, change);
      PutSays(s.last, change);
    case StartFlush =>
    case Apply =>
      if InFlight(s) {
        PutSays(s.sheet, s.flight.value.snapshot[s.flight.value.at]);
      }
    case ApplyLost(i) =>
      if i < |s.lost| {
        PutSays(s.sheet, s.lost[i]);
      }
    case Learn(answer) =>
      if InFlight(s) && MayLearn(s.flight.value, answer) && answer != Unreachable {
        LearnedStatus(s, answer, k);
      }
  }

  lemma {:induction false} RunKeepsStatus(s: State, steps: seq<Step>, k: Key)
    requires Sound(s) && IsKept(s, k) && NonePassesBy(s, steps, k)
    ensures IsKept(Run(s, steps), k)
    decreases |steps|
  {
    if steps != [] {
      NextKeepsStatus(s, steps[0], k);
      NextKeepsSound(s, steps[0]);
      RunKeepsStatus(Next(s, steps[0]), steps[1..], k);
    }
  }

  predicate Refuses(steps: seq<Step>) {
    Learn(Rejected) in steps
  }

  lemma StepDropsNothing(s: State, step: Step)
    requires step != Learn(Rejected) && s.dropped == map[]
    ensures Next(s, step).dropped == map[]
  {
  }

  lemma {:induction false} NothingDropped(s: State, steps: seq<Step>)
    requires !Refuses(steps) && s.dropped == map[]
    ensures Run(s, steps).dropped == map[]
    decreases |steps|
  {
    if steps != [] {
      assert steps[0] in steps;
      assert !Refuses(steps[1..]);
      StepDropsNothing(s, steps[0]);
      NothingDropped(Next(s, steps[0]), steps[1..]);
    }
  }

  /**
   * Over every run of saves, flushes, applied requests and answers: if nothing writes the member past the queue, the
   * status saved last is queued, or the server wrote it last, or the server refused it.
   */
  lemma NothingIsLost(steps: seq<Step>, k: Key)
    requires NonePassesBy(START, steps, k)
    ensures var s := Run(START, steps);
      && IsQueue(s.queue)
      && (Queued(s.queue, k).Some? ==> Queued(s.queue, k) == Get(s.last, k))
      && (Queued(s.queue, k).None? && !Refuses(steps) ==> Get(s.sheet, k) == Get(s.last, k))
      && (Queued(s.queue, k).None? && Get(s.sheet, k) != Get(s.last, k) ==> Get(s.dropped, k) == Get(s.last, k))
  {
    assert Sound(START) && IsKept(START, k);
    RunKeepsSound(START, steps);
    RunKeepsStatus(START, steps, k);
    if !Refuses(steps) {
      NothingDropped(START, steps);
    }
  }

  // ---------- What becomes of a status ----------

  predicate NeverSaves(steps: seq<Step>, k: Key) {
    forall i: nat :: i < |steps| ==> !Saves(steps[i], k)
  }

  /** The first answer to a request that the server has applied: it accepts, or the answer gets lost. */
  function FirstAnswer(steps: seq<Step>): Option<Answer> {
    if steps == [] then None
    else if steps[0].Learn? && steps[0].answer != Rejected then Some(steps[0].answer)
    else FirstAnswer(steps[1..])
  }

  /** In these steps the server refuses the status that is queued for the member, or applies a request given up. */
  predicate IsDisturbed(s: State, steps: seq<Step>, k: Key)
    decreases |steps|
  {
    steps != [] &&
    var t := Next(s, steps[0]);
    || (steps[0] == Learn(Rejected) && Queued(s.queue, k).Some? && Queued(t.queue, k).None?)
    || WritesLate(s, steps[0], k)
    || IsDisturbed(t, steps[1..], k)
  }

  lemma {:induction false} NotDisturbed(s: State, steps: seq<Step>, k: Key)
    requires !Refuses(steps) && forall step | step in steps :: !step.ApplyLost?
    ensures !IsDisturbed(s, steps, k)
    decreases |steps|
  {
    if steps != [] {
      assert steps[0] in steps && !Refuses(steps[1..]);
      NotDisturbed(Next(s, steps[0]), steps[1..], k);
    }
  }

  /**
   * What the server ends up with for a member that is not saved any more. A queued status wins, unless the server has
   * just applied that very status and accepts it: then it is taken off the queue, and what the server holds stays.
   */
  function Fate(s: State, k: Key, answer: Option<Answer>): Option<Status> {
    if Queued(s.queue, k).None? then Get(s.sheet, k)
    else if AppliedInFlight(s, k) == Queued(s.queue, k) && answer == Some(Accepted) then Get(s.sheet, k)
    else Queued(s.queue, k)
  }

  lemma LearningKeepsFate(s: State, answer: Answer, rest: seq<Step>, k: Key)
    requires Sound(s)
    requires answer == Rejected && Queued(s.queue, k).Some? ==> Queued(Next(s, Learn(answer)).queue, k).Some?
    ensures Fate(Next(s, Learn(answer)), k, FirstAnswer(rest)) == Fate(s, k, FirstAnswer([Learn(answer)] + rest))
  {
    assert ([Learn(answer)] + rest)[1..] == rest;
    if InFlight(s) && MayLearn(s.flight.value, answer) && answer != Unreachable {
      LearnedStatus(s, answer, k);
    }
  }

  lemma StepKeepsFate(s: State, step: Step, rest: seq<Step>, k: Key)
    requires Sound(s) && !Saves(step, k) && !WritesLate(s, step, k)
    requires step == Learn(Rejected) && Queued(s.queue, k).Some? ==> Queued(Next(s, step).queue, k).Some?
    ensures Fate(Next(s, step), k, FirstAnswer(rest)) == Fate(s, k, FirstAnswer([step] + rest))
  {
    assert ([step] + rest)[1..] == rest;
    match step
    case QueueSave(change) => EnqueuedStatus(s.queue, change, k);
    case DirectSave(change) => PutSays(s.sheet, change);
    case StartFlush =>
    case Apply =>
      if InFlight(s) {
        PutSays(s.sheet, s.flight.value.snapshot[s.flight.value.at]);
      }
    case ApplyLost(i) =>
      if i < |s.lost| {
        PutSays(s.sheet, s.lost[i]);
      }
    case Learn(answer) => LearningKeepsFate(s, answer, rest, k);
  }

  /** From any state, whatever was saved in which way before. */
  lemma {:induction false} FateIsMet(s: State, steps: seq<Step>, k: Key)
    requires Sound(s) && NeverSaves(steps, k) && !IsDisturbed(s, steps, k) && Queued(Run(s, steps).queue, k).None?
    ensures Get(Run(s, steps).sheet, k) == Fate(s, k, FirstAnswer(steps))
    decreases |steps|
  {
    if steps != [] {
      assert steps == [steps[0]] + steps[1..];
      assert !Saves(steps[0], k);
      assert NeverSaves(steps[1..], k);
      NextKeepsSound(s, steps[0]);
      FateIsMet(Next(s, steps[0]), steps[1..], k);
      StepKeepsFate(s, steps[0], steps[1..], k);
    }
  }

  lemma {:induction false} LastStays(s: State, steps: seq<Step>, k: Key)
    requires NeverSaves(steps, k)
    ensures Get(Run(s, steps).last, k) == Get(s.last, k)
    decreases |steps|
  {
    if steps != [] {
      var step := steps[0];
      assert !Saves(step, k) && NeverSaves(steps[1..], k);
      if step.QueueSave? || step.DirectSave? {
        PutSays(s.last, step.change);
      }
      LastStays(Next(s, step), steps[1..], k);
    }
  }

  /**
   * A save that goes straight to the server. Once the queue has let go of the member, and neither a refusal nor a
   * request given up has interfered, the server holds the saved status just when the queue held no other one at the
   * time, or had it in flight, applied, and the next answer accepts it. Otherwise the older status has overwritten the
   * save.
   */
  lemma DirectSaveIsKept(before: seq<Step>, change: Change, after: seq<Step>, k: Key)
    requires Says(change, k).Some? && NeverSaves(after, k)
    requires var t := Next(Run(START, before), DirectSave(change));
      !IsDisturbed(t, after, k) && Queued(Run(t, after).queue, k).None?
    ensures var s := Run(START, before);
      var end := Run(Next(s, DirectSave(change)), after);
      && Get(end.last, k) == Says(change, k)
      && (Get(end.sheet, k) == Get(end.last, k) <==>
            || Queued(s.queue, k).None?
            || Queued(s.queue, k) == Says(change, k)
            || (AppliedInFlight(s, k) == Queued(s.queue, k) && FirstAnswer(after) == Some(Accepted)))
      && (Get(end.sheet, k) != Get(end.last, k) ==> Get(end.sheet, k) == Queued(s.queue, k))
  {
    var s := Run(START, before);
    var t := Next(s, DirectSave(change));
    RunKeepsSound(START, before);
    NextKeepsSound(s, DirectSave(change));
    PutSays(s.sheet, change);
    PutSays(s.last, change);
    FateIsMet(t, after, k);
    LastStays(t, after, k);
  }

  /**
   * A save that is queued, under the same conditions. It is lost just when the server has applied the same status, was
   * then given another one past the queue, and accepts the first one: the queue takes the answer for one to the new
   * save.
   */
  lemma QueuedSaveIsKept(before: seq<Step>, change: Change, after: seq<Step>, k: Key)
    requires Says(change, k).Some? && NeverSaves(after, k)
    requires var t := Next(Run(START, before), QueueSave(change));
      !IsDisturbed(t, after, k) && Queued(Run(t, after).queue, k).None?
    ensures var s := Run(START, before);
      var end := Run(Next(s, QueueSave(change)), after);
      && Get(end.last, k) == Says(change, k)
      && (Get(end.sheet, k) == Get(end.last, k) <==>
            !(&& AppliedInFlight(s, k) == Says(change, k) && FirstAnswer(after) == Some(Accepted)
              && Get(s.sheet, k) != Says(change, k)))
  {
    var s := Run(START, before);
    var t := Next(s, QueueSave(change));
    RunKeepsSound(START, before);
    NextKeepsSound(s, QueueSave(change));
    EnqueuedStatus(s.queue, change, k);
    PutSays(s.last, change);
    FateIsMet(t, after, k);
    LastStays(t, after, k);
  }

  // ---------- Runs in which a save is lost ----------

  /** A change of one status. */
  function One(k: Key, status: Status): Change {
    Change(k.event, k.date, [Entry(k.member, status)])
  }

  lemma MergedOnce(entries: seq<Entry>, e: Entry)
    requires entries == [] || entries == [e]
    ensures Merged(entries, [e]) == [e]
  {
    assert [e][..0] == [];
    assert Merged(entries, []) == entries;
    assert WithoutMember([], e.member) == [];
  }

  lemma OneIsEnqueued(k: Key, status: Status)
    ensures Enqueued([], One(k, status)) == [One(k, status)]
    ensures Enqueued([One(k, status)], One(k, status)) == [One(k, status)]
  {
    var e, c := Entry(k.member, status), One(k, status);
    MergedOnce([], e);
    MergedOnce([e], e);
    assert Place([], c) == 0 && Place([c], c) == 0;
    assert [c][0 := c] == [c];
  }

  lemma OneIsAcknowledged(k: Key, status: Status)
    ensures Acknowledged([One(k, status)], One(k, status)) == []
  {
    var e, c := Entry(k.member, status), One(k, status);
    assert [e][..0] == [] && [c][..0] == [];
    assert Unsent([], [e]) == [] && Unsent([e], [e]) == [];
    assert Acknowledged([], c) == [];
  }

  lemma OneIsPut(sheet: Sheet, k: Key, status: Status)
    ensures PutChange(sheet, One(k, status)) == sheet[k := status]
  {
    var e := Entry(k.member, status);
    assert [e][..0] == [] && Put(sheet, k.event, k.date, []) == sheet;
  }

  lemma RunOneMore(s: State, step: Step, rest: seq<Step>)
    ensures Run(s, [step] + rest) == Run(Next(s, step), rest)
  {
    assert ([step] + rest)[1..] == rest;
  }

  lemma AfterQueueing(s: State, k: Key, status: Status)
    requires s.queue == [] || s.queue == [One(k, status)]
    ensures var t := Next(s, QueueSave(One(k, status)));
      t.queue == [One(k, status)] && t.last == s.last[k := status] && t.sheet == s.sheet && t.flight == s.flight
  {
    OneIsEnqueued(k, status);
    OneIsPut(s.last, k, status);
  }

  lemma AfterDirectSave(s: State, k: Key, status: Status)
    ensures var t := Next(s, DirectSave(One(k, status)));
      t.queue == s.queue && t.last == s.last[k := status] && t.sheet == s.sheet[k := status] && t.flight == s.flight
  {
    OneIsPut(s.last, k, status);
    OneIsPut(s.sheet, k, status);
  }

  lemma AfterSending(s: State, k: Key, status: Status)
    requires s.queue == [One(k, status)] && s.flight.None?
    ensures var t := Next(Next(s, StartFlush), Apply);
      && t.queue == s.queue && t.last == s.last && t.sheet == s.sheet[k := status]
      && t.flight == Some(Flight(s.queue, 0, true))
  {
    OneIsPut(s.sheet, k, status);
  }

  lemma AfterAccepting(s: State, k: Key, status: Status)
    requires s.queue == [One(k, status)] && s.flight == Some(Flight(s.queue, 0, true))
    ensures var t := Next(s, Learn(Accepted));
      t.queue == [] && t.last == s.last && t.sheet == s.sheet && t.flight == None
  {
    OneIsAcknowledged(k, status);
  }

  /** What waits overwrites a later save when it is sent: Excused was saved last, the server holds Present. */
  lemma OverwrittenSave(k: Key)
    ensures var older, newer := One(k, Some(Present)), One(k, Some(Excused));
      var end := Run(START, [QueueSave(older), DirectSave(newer), StartFlush, Apply, Learn(Accepted)]);
      && end.queue == [] && end.flight == None
      && Get(end.last, k) == Some(Some(Excused)) && Get(end.sheet, k) == Some(Some(Present))
  {
    var older, newer := One(k, Some(Present)), One(k, Some(Excused));
    var a := Next(START, QueueSave(older));
    var b := Next(a, DirectSave(newer));
    var c := Next(Next(b, StartFlush), Apply);
    AfterQueueing(START, k, Some(Present));
    AfterDirectSave(a, k, Some(Excused));
    AfterSending(b, k, Some(Present));
    AfterAccepting(c, k, Some(Present));
    RunFive(START, QueueSave(older), DirectSave(newer), StartFlush, Apply, Learn(Accepted));
  }

  lemma RunFive(s: State, a: Step, b: Step, c: Step, d: Step, e: Step)
    ensures Run(s, [a, b, c, d, e]) == Next(Next(Next(Next(Next(s, a), b), c), d), e)
  {
    assert [a, b, c, d, e] == [a] + ([b] + ([c] + ([d] + ([e] + []))));
    RunOneMore(s, a, [b] + ([c] + ([d] + ([e] + []))));
    var t := Next(s, a);
    RunOneMore(t, b, [c] + ([d] + ([e] + [])));
    RunOneMore(Next(t, b), c, [d] + ([e] + []));
    RunOneMore(Next(Next(t, b), c), d, [e] + []);
    RunOneMore(Next(Next(Next(t, b), c), d), e, []);
  }

  /** The queue takes an answer for one to a later save: Present was saved last, the server holds Excused. */
  lemma ForgottenSave(k: Key)
    ensures var present, excused := One(k, Some(Present)), One(k, Some(Excused));
      var end := Run(START, [QueueSave(present)] + [StartFlush, Apply, DirectSave(excused), QueueSave(present),
                                                    Learn(Accepted)]);
      && end.queue == [] && end.flight == None
      && Get(end.last, k) == Some(Some(Present)) && Get(end.sheet, k) == Some(Some(Excused))
  {
    var present, excused := One(k, Some(Present)), One(k, Some(Excused));
    var a := Next(START, QueueSave(present));
    var b := Next(Next(a, StartFlush), Apply);
    var c := Next(b, DirectSave(excused));
    var d := Next(c, QueueSave(present));
    AfterQueueing(START, k, Some(Present));
    AfterSending(a, k, Some(Present));
    AfterDirectSave(b, k, Some(Excused));
    AfterQueueing(c, k, Some(Present));
    AfterAccepting(d, k, Some(Present));
    RunOneMore(START, QueueSave(present),
               [StartFlush, Apply, DirectSave(excused), QueueSave(present), Learn(Accepted)]);
    RunFive(a, StartFlush, Apply, DirectSave(excused), QueueSave(present), Learn(Accepted));
  }

  // ---------- With refusals and requests given up ----------

  /** The status a step writes on the server. */
  function WrittenBy(s: State, step: Step, k: Key): Option<Status> {
    match step
    case DirectSave(change) => Says(change, k)
    case Apply =>
      if InFlight(s) && !s.flight.value.applied then Says(s.flight.value.snapshot[s.flight.value.at], k) else None
    case ApplyLost(i) => if i < |s.lost| then Says(s.lost[i], k) else None
    case _ => None
  }

  /** The last status written on the server over all steps. */
  function Written(s: State, steps: seq<Step>, k: Key): Option<Status>
    decreases |steps|
  {
    if steps == [] then None
    else
      var later := Written(Next(s, steps[0]), steps[1..], k);
      if later.Some? then later else WrittenBy(s, steps[0], k)
  }

  lemma {:induction false} ServerHoldsLastWrite(s: State, steps: seq<Step>, k: Key)
    ensures Get(Run(s, steps).sheet, k) == if Written(s, steps, k).Some? then Written(s, steps, k) else Get(s.sheet, k)
    decreases |steps|
  {
    if steps != [] {
      ServerHoldsLastWrite(Next(s, steps[0]), steps[1..], k);
      StepWrites(s, steps[0], k);
    }
  }

  lemma StepWrites(s: State, step: Step, k: Key)
    ensures Get(Next(s, step).sheet, k) ==
            if WrittenBy(s, step, k).Some? then WrittenBy(s, step, k) else Get(s.sheet, k)
  {
    match step
    case DirectSave(change) => PutSays(s.sheet, change);
    case Apply =>
      if InFlight(s) {
        PutSays(s.sheet, s.flight.value.snapshot[s.flight.value.at]);
      }
    case ApplyLost(i) =>
      if i < |s.lost| {
        PutSays(s.sheet, s.lost[i]);
      }
    case _ =>
  }

  ghost predicate AnySays(changes: seq<Change>, k: Key, status: Status) {
    exists j: nat :: j < |changes| && Says(changes[j], k) == Some(status)
  }

  /** The status is queued, still to be sent by the flush, or in a request the client has given up on. */
  ghost predicate IsUnderWay(s: State, k: Key, status: Status) {
    || Queued(s.queue, k) == Some(status)
    || (InFlight(s) && AnySays(s.flight.value.snapshot[s.flight.value.at..], k, status))
    || AnySays(s.lost, k, status)
  }

  lemma LearningSendsNothingNew(s: State, answer: Answer, k: Key, status: Status)
    requires Sound(s) && IsUnderWay(Next(s, Learn(answer)), k, status)
    ensures IsUnderWay(s, k, status)
  {
    var t := Next(s, Learn(answer));
    if InFlight(s) && MayLearn(s.flight.value, answer) {
      var f := s.flight.value;
      var left := f.snapshot[f.at..];
      assert left[0] == f.snapshot[f.at] && left[1..] == f.snapshot[f.at + 1..];
      if answer != Unreachable {
        LearnedStatus(s, answer, k);
      }
      if AnySays(t.lost, k, status) {
        var j: nat :| j < |t.lost| && Says(t.lost[j], k) == Some(status);
        assert if j < |s.lost| then t.lost[j] == s.lost[j] else t.lost[j] == left[0];
      } else if InFlight(t) && AnySays(f.snapshot[f.at + 1..], k, status) {
        var j: nat :| j < |left[1..]| && Says(left[1..][j], k) == Some(status);
        assert left[j + 1] == left[1..][j];
      }
    }
  }

  lemma StartSendsNothingNew(s: State, k: Key, status: Status)
    requires Sound(s) && IsUnderWay(Next(s, StartFlush), k, status)
    ensures IsUnderWay(s, k, status)
  {
    if s.flight.None? && AnySays(s.queue, k, status) {
      var j: nat :| j < |s.queue| && Says(s.queue[j], k) == Some(status);
      QueuedAt(s.queue, j, k);
    }
    assert s.queue[0..] == s.queue;
  }

  lemma SavingElsewhere(s: State, change: Change, k: Key, status: Status)
    requires Sound(s) && Says(change, k).None? && IsUnderWay(Next(s, QueueSave(change)), k, status)
    ensures IsUnderWay(s, k, status)
  {
    EnqueuedStatus(s.queue, change, k);
    var t := Next(s, QueueSave(change));
    if AnySays(t.lost, k, status) {
      var j: nat :| j < |t.lost| && Says(t.lost[j], k) == Some(status);
      assert t.lost[j] == if j < |s.lost| then s.lost[j] else change;
    }
  }

  lemma LateSendsNothingNew(s: State, i: nat, k: Key, status: Status)
    requires i < |s.lost| && AnySays(s.lost[..i] + s.lost[i + 1..], k, status)
    ensures AnySays(s.lost, k, status)
  {
    var left := s.lost[..i] + s.lost[i + 1..];
    var j: nat :| j < |left| && Says(left[j], k) == Some(status);
    assert left[j] == s.lost[if j < i then j else j + 1];
  }

  lemma NothingNewUnderWay(s: State, step: Step, k: Key, status: Status)
    requires Sound(s) && !Saves(step, k) && IsUnderWay(Next(s, step), k, status)
    ensures IsUnderWay(s, k, status)
  {
    match step
    case QueueSave(change) => SavingElsewhere(s, change, k, status);
    case DirectSave(_) =>
    case StartFlush => StartSendsNothingNew(s, k, status);
    case Apply =>
    case ApplyLost(i) =>
      if i < |s.lost| && AnySays(s.lost[..i] + s.lost[i + 1..], k, status) {
        LateSendsNothingNew(s, i, k, status);
      }
    case Learn(answer) => LearningSendsNothingNew(s, answer, k, status);
  }

  lemma WrittenIsUnderWay(s: State, step: Step, k: Key)
    requires Sound(s) && !Saves(step, k) && WrittenBy(s, step, k).Some?
    ensures IsUnderWay(s, k, WrittenBy(s, step, k).value)
  {
    if step == Apply {
      var f := s.flight.value;
      assert f.snapshot[f.at..][0] == f.snapshot[f.at];
    }
  }

  /** Whatever the server writes later was under way before. */
  lemma {:induction false} OnlyUnderWayIsWritten(s: State, steps: seq<Step>, k: Key)
    requires Sound(s) && NeverSaves(steps, k) && Written(s, steps, k).Some?
    ensures IsUnderWay(s, k, Written(s, steps, k).value)
    decreases |steps|
  {
    var t := Next(s, steps[0]);
    assert !Saves(steps[0], k) && NeverSaves(steps[1..], k);
    NextKeepsSound(s, steps[0]);
    if Written(t, steps[1..], k).Some? {
      OnlyUnderWayIsWritten(t, steps[1..], k);
      NothingNewUnderWay(s, steps[0], k, Written(t, steps[1..], k).value);
    } else {
      WrittenIsUnderWay(s, steps[0], k);
    }
  }

  /**
   * A save in any run, also with refusals and with requests applied after they were given up: the server ends up with
   * it just when what it last wrote of the member is that status. All it may write since was queued, still to be sent
   * or given up when the save was made.
   */
  lemma SaveInAnyRun(before: seq<Step>, save: Step, after: seq<Step>, k: Key)
    requires Saves(save, k) && NeverSaves(after, k)
    ensures var s := Next(Run(START, before), save);
      var end, last := Run(s, after), Written(s, after, k);
      && Get(end.last, k) == Says(save.change, k)
      && (Get(end.sheet, k) == Get(end.last, k) <==>
            if last.Some? then last == Says(save.change, k)
            else save.DirectSave? || Get(s.sheet, k) == Says(save.change, k))
      && (last.Some? ==> IsUnderWay(s, k, last.value))
  {
    var s := Run(START, before);
    var t := Next(s, save);
    RunKeepsSound(START, before);
    NextKeepsSound(s, save);
    PutSays(s.last, save.change);
    PutSays(s.sheet, save.change);
    ServerHoldsLastWrite(t, after, k);
    LastStays(t, after, k);
    if Written(t, after, k).Some? {
      OnlyUnderWayIsWritten(t, after, k);
    }
  }

  // ---------- A whole flush ----------

  function Rounds(n: nat): seq<Step> {
    if n == 0 then [] else [Apply, Learn(Accepted)] + Rounds(n - 1)
  }

  lemma {:induction false} QueuedBehind(queue: seq<Change>, k: Key)
    requires IsQueue(queue) && queue != []
    ensures IsQueue(queue[1..])
    ensures Queued(queue, k) == if About(queue[0], k) then Says(queue[0], k) else Queued(queue[1..], k)
    ensures About(queue[0], k) ==> Queued(queue[1..], k) == None
  {
    forall i: nat | i < |queue| - 1
      ensures !SameOccurrence(queue[0], queue[1..][i])
    {
      assert queue[1..][i] == queue[i + 1];
    }
    if About(queue[0], k) {
      QueuedAt(queue, 0, k);
      QueuedNowhere(queue[1..], k);
    } else {
      FirstElsewhere(queue, k);
    }
  }

  lemma {:induction false} FirstElsewhere(queue: seq<Change>, k: Key)
    requires queue != [] && !About(queue[0], k)
    ensures Queued(queue, k) == Queued(queue[1..], k)
  {
    var n := |queue| - 1;
    if n > 0 {
      FirstElsewhere(queue[..n], k);
      assert queue[..n][1..] == queue[1..][..n - 1];
    }
  }

  /** Sending goes down the snapshot: what is left of it is what is left queued. */
  ghost predicate SendsTheQueue(s: State, rest: seq<Change>) {
    && Sound(s)
    && IsQueue(rest)
    && (forall k: Key :: Queued(s.queue, k) == Queued(rest, k))
    && (if rest == [] then s.flight.None?
        else s.flight.Some? && !s.flight.value.applied
             && s.flight.value.snapshot[s.flight.value.at..] == rest)
  }

  lemma AppliedAndAccepted(s: State)
    requires InFlight(s) && !s.flight.value.applied
    ensures var f, t := s.flight.value, Next(Next(s, Apply), Learn(Accepted));
      t.queue == Acknowledged(s.queue, f.snapshot[f.at]) && t.flight == Begun(f.snapshot, f.at + 1)
  {
  }

  lemma RestOfQueue(s: State, rest: seq<Change>)
    requires Sound(s) && IsQueue(rest) && rest != [] && forall k: Key :: Queued(s.queue, k) == Queued(rest, k)
    ensures IsQueue(rest[1..])
    ensures forall k: Key :: Queued(Acknowledged(s.queue, rest[0]), k) == Queued(rest[1..], k)
  {
    QueuedBehind(rest, Key(0, 0, 0));
    forall k: Key ensures Queued(Acknowledged(s.queue, rest[0]), k) == Queued(rest[1..], k) {
      QueuedBehind(rest, k);
      AcknowledgedSays(s.queue, rest[0], k);
    }
  }

  lemma RoundSends(s: State, rest: seq<Change>)
    requires SendsTheQueue(s, rest) && rest != []
    ensures SendsTheQueue(Next(Next(s, Apply), Learn(Accepted)), rest[1..])
  {
    var f := s.flight.value;
    NextKeepsSound(s, Apply);
    NextKeepsSound(Next(s, Apply), Learn(Accepted));
    AppliedAndAccepted(s);
    assert f.snapshot[f.at] == rest[0];
    assert f.snapshot[f.at + 1..] == rest[1..];
    RestOfQueue(s, rest);
  }

  lemma {:induction false} RoundsSend(s: State, rest: seq<Change>)
    requires SendsTheQueue(s, rest)
    ensures SendsTheQueue(Run(s, Rounds(|rest|)), [])
    decreases |rest|
  {
    if rest != [] {
      var steps := Rounds(|rest|);
      var u := Next(s, Apply);
      RoundSends(s, rest);
      assert steps[1..] == [Learn(Accepted)] + Rounds(|rest| - 1);
      assert steps[1..][1..] == Rounds(|rest| - 1);
      assert Run(s, steps) == Run(Next(u, Learn(Accepted)), Rounds(|rest| - 1));
      RoundsSend(Next(u, Learn(Accepted)), rest[1..]);
    }
  }

  lemma {:induction false} RoundsSaveNothing(n: nat, k: Key)
    ensures NeverSaves(Rounds(n), k) && !Refuses(Rounds(n)) && forall step | step in Rounds(n) :: !step.ApplyLost?
  {
    if n > 0 {
      RoundsSaveNothing(n - 1, k);
    }
  }

  /**
   * From any state without a flush, one flush that the server accepts leaves nothing queued, and the server holds every
   * status that was queued.
   */
  lemma FlushDelivers(s: State, k: Key)
    requires Sound(s) && s.flight.None?
    ensures var t := Run(s, [StartFlush] + Rounds(|s.queue|));
      && Queued(t.queue, k) == None && t.flight.None?
      && Get(t.sheet, k) == if Queued(s.queue, k).Some? then Queued(s.queue, k) else Get(s.sheet, k)
  {
    var steps := [StartFlush] + Rounds(|s.queue|);
    var u := Next(s, StartFlush);
    NextKeepsSound(s, StartFlush);
    assert s.queue[0..] == s.queue;
    assert SendsTheQueue(u, s.queue);
    RoundsSend(u, s.queue);
    assert steps[1..] == Rounds(|s.queue|);
    RoundsSaveNothing(|s.queue|, k);
    NotDisturbed(u, Rounds(|s.queue|), k);
    FateIsMet(u, Rounds(|s.queue|), k);
  }

  // ---------- The client takes these steps ----------

  /** The client of a state: the queue, and the flush that is running. */
  ghost predicate Shows(client: Client, s: State)
    reads client
  {
    && client.Valid() && client.queue == s.queue && client.flushing == s.flight.Some?
    && (client.flushing ==> client.snapshot == s.flight.value.snapshot && client.at == s.flight.value.at)
  }

  method SaveInQueue(client: Client, change: Change, ghost s: State)
    requires Shows(client, s)
    modifies client
    ensures Shows(client, Next(s, QueueSave(change)))
  {
    client.Enqueue(change);
  }

  /** Starting a flush is the step of that name, and sends the change that is then in flight. */
  method BeginFlush(client: Client, ghost s: State) returns (request: Option<Change>)
    requires Shows(client, s)
    modifies client
    ensures Shows(client, Next(s, StartFlush))
    ensures s.flight.None? ==> request == if InFlight(Next(s, StartFlush)) then Some(s.queue[0]) else None
  {
    request := client.StartFlush();
  }

  /** Going on after an answer that may come is the step of that name, and sends the change that is then in flight. */
  method GoOn(client: Client, answer: Answer, ghost s: State) returns (request: Option<Change>)
    requires Shows(client, s) && s.flight.Some? && MayLearn(s.flight.value, answer)
    modifies client
    ensures Shows(client, Next(s, Learn(answer)))
    ensures var f := Next(s, Learn(answer)).flight;
      request == if f.Some? then Some(f.value.snapshot[f.value.at]) else None
  {
    request := client.Resume(answer);
  }
}
