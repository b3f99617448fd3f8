/**
 * The offline attendance queue (frontend/src/api/attendance.ts): changes that could not be sent wait in a queue,
 * and a flush sends them one by one while new changes may arrive at every await.
 */
module Attendance {

  import opened Wrappers

  datatype Mark = Present | Excused | Unexcused

  /** None clears the entry. */
  type Status = Option<Mark>

  datatype Entry = Entry(member: nat, status: Status)

  datatype Change = Change(event: nat, date: nat, entries: seq<Entry>)

  /** What one status is about: a member at one occurrence of an event. */
  datatype Key = Key(event: nat, date: nat, member: nat)

  predicate SameOccurrence(a: Change, b: Change) {
    a.event == b.event && a.date == b.date
  }

  predicate About(c: Change, k: Key) {
    c.event == k.event && c.date == k.date
  }

  /** The last status entries give a member. */
  function StatusOf(entries: seq<Entry>, member: nat): Option<Status> {
    if entries == [] then None
    else
      var last := entries[|entries| - 1];
      if last.member == member then Some(last.status) else StatusOf(entries[..|entries| - 1], member)
  }

  function Queued(queue: seq<Change>, k: Key): Option<Status> {
    if queue == [] then None
    else
      var last := queue[|queue| - 1];
      if About(last, k) then StatusOf(last.entries, k.member) else Queued(queue[..|queue| - 1], k)
  }

  ghost predicate OncePerMember(entries: seq<Entry>) {
    forall i: nat, j: nat :: i < j < |entries| ==> entries[i].member != entries[j].member
  }

  /** The queue never holds two entries for one member at one occurrence. */
  ghost predicate IsQueue(queue: seq<Change>) {
    && (forall i: nat, j: nat :: i < j < |queue| ==> !SameOccurrence(queue[i], queue[j]))
    && (forall i: nat :: i < |queue| ==> OncePerMember(queue[i].entries))
  }

  // ---------- Enqueuing ----------

  function WithoutMember(entries: seq<Entry>, member: nat): seq<Entry> {
    if entries == [] then []
    else
      var last := entries[|entries| - 1];
      var before := WithoutMember(entries[..|entries| - 1], member);
      if last.member != member then before + [last] else before
  }

  function Merged(entries: seq<Entry>, newer: seq<Entry>): seq<Entry> {
    if newer == [] then entries
    else
      var last := newer[|newer| - 1];
      WithoutMember(Merged(entries, newer[..|newer| - 1]), last.member) + [last]
  }

  /** Where the queue holds the occurrence, or its end. */
  function Place(queue: seq<Change>, change: Change): (at: nat)
    ensures at <= |queue|
    ensures at < |queue| ==> SameOccurrence(queue[at], change)
    ensures forall i: nat :: i < at ==> !SameOccurrence(queue[i], change)
  {
    if queue == [] then 0
    else
      var at := Place(queue[..|queue| - 1], change);
      if at < |queue| - 1 || SameOccurrence(queue[at], change) then at else |queue|
  }

  function Enqueued(queue: seq<Change>, change: Change): seq<Change> {
    var at := Place(queue, change);
    if at < |queue| then queue[at := queue[at].(entries := Merged(queue[at].entries, change.entries))]
    else queue + [change.(entries := Merged([], change.entries))]
  }

  lemma StatusOfOneMore(entries: seq<Entry>, e: Entry, member: nat)
    ensures StatusOf(entries + [e], member) == if e.member == member then Some(e.status) else StatusOf(entries, member)
  {
    assert (entries + [e])[..|entries|] == entries;
  }

  lemma {:induction false} WithoutMemberDrops(entries: seq<Entry>, gone: nat, member: nat)
    ensures StatusOf(WithoutMember(entries, gone), member)
         == if member == gone then None else StatusOf(entries, member)
  {
    if entries != [] {
      var n := |entries| - 1;
      WithoutMemberDrops(entries[..n], gone, member);
      StatusOfOneMore(WithoutMember(entries[..n], gone), entries[n], member);
    }
  }

  /** Newer entries win, all others stay. */
  lemma {:induction false} MergedStatus(entries: seq<Entry>, newer: seq<Entry>, member: nat)
    ensures StatusOf(Merged(entries, newer), member)
         == if StatusOf(newer, member).Some? then StatusOf(newer, member) else StatusOf(entries, member)
  {
    if newer != [] {
      var n := |newer| - 1;
      MergedStatus(entries, newer[..n], member);
      WithoutMemberDrops(Merged(entries, newer[..n]), newer[n].member, member);
      StatusOfOneMore(WithoutMember(Merged(entries, newer[..n]), newer[n].member), newer[n], member);
    }
  }

  lemma {:induction false} WithoutMemberKeepsOnce(entries: seq<Entry>, gone: nat)
    requires OncePerMember(entries)
    ensures OncePerMember(WithoutMember(entries, gone))
    ensures forall e: Entry :: e in WithoutMember(entries, gone) ==> e in entries && e.member != gone
  {
    if entries != [] {
      WithoutMemberKeepsOnce(entries[..|entries| - 1], gone);
    }
  }

  lemma {:induction false} MergedKeepsOnce(entries: seq<Entry>, newer: seq<Entry>)
    requires OncePerMember(entries)
    ensures OncePerMember(Merged(entries, newer))
  {
    if newer != [] {
      MergedKeepsOnce(entries, newer[..|newer| - 1]);
      WithoutMemberKeepsOnce(Merged(entries, newer[..|newer| - 1]), newer[|newer| - 1].member);
    }
  }

  lemma {:induction false} QueuedAt(queue: seq<Change>, i: nat, k: Key)
    requires IsQueue(queue) && i < |queue| && About(queue[i], k)
    ensures Queued(queue, k) == StatusOf(queue[i].entries, k.member)
  {
    var n := |queue| - 1;
    if i < n {
      assert !SameOccurrence(queue[i], queue[n]);
      QueuedAt(queue[..n], i, k);
    }
  }

  lemma {:induction false} QueuedNowhere(queue: seq<Change>, k: Key)
    requires forall i: nat :: i < |queue| ==> !About(queue[i], k)
    ensures Queued(queue, k) == None
  {
    if queue != [] {
      QueuedNowhere(queue[..|queue| - 1], k);
    }
  }

  lemma {:induction false} QueuedElsewhere(queue: seq<Change>, i: nat, c: Change, k: Key)
    requires i < |queue| && !About(queue[i], k) && !About(c, k)
    ensures Queued(queue[i := c], k) == Queued(queue, k)
  {
    var n := |queue| - 1;
    if i < n {
      assert queue[i := c][..n] == queue[..n][i := c];
      QueuedElsewhere(queue[..n], i, c, k);
    } else {
      assert queue[i := c][..n] == queue[..n];
    }
  }

  /** After a change is queued, its statuses are what the queue holds for its members, and nothing else has moved. */
  lemma EnqueuedStatus(queue: seq<Change>, change: Change, k: Key)
    requires IsQueue(queue)
    ensures IsQueue(Enqueued(queue, change))
    ensures Queued(Enqueued(queue, change), k)
         == if About(change, k) && StatusOf(change.entries, k.member).Some?
            then StatusOf(change.entries, k.member) else Queued(queue, k)
  {
    var at := Place(queue, change);
    var after := Enqueued(queue, change);
    if at < |queue| {
      MergedKeepsOnce(queue[at].entries, change.entries);
      assert IsQueue(after);
      if About(change, k) {
        QueuedAt(queue, at, k);
        QueuedAt(after, at, k);
        MergedStatus(queue[at].entries, change.entries, k.member);
      } else {
        QueuedElsewhere(queue, at, after[at], k);
      }
    } else {
      MergedKeepsOnce([], change.entries);
      assert IsQueue(after);
      assert after[..|queue|] == queue;
      if About(change, k) {
        QueuedNowhere(queue, k);
        MergedStatus([], change.entries, k.member);
      }
    }
  }

  // ---------- Acknowledging ----------

  /** Entries that were sent as they still are go; entries changed since stay. */
  function Unsent(entries: seq<Entry>, sent: seq<Entry>): seq<Entry> {
    if entries == [] then []
    else
      var last := entries[|entries| - 1];
      var before := Unsent(entries[..|entries| - 1], sent);
      if last !in sent then before + [last] else before
  }

  function Left(q: Change, change: Change): Change {
    if SameOccurrence(q, change) then q.(entries := Unsent(q.entries, change.entries)) else q
  }

  function Acknowledged(queue: seq<Change>, change: Change): seq<Change> {
    if queue == [] then []
    else
      var left := Left(queue[|queue| - 1], change);
      var before := Acknowledged(queue[..|queue| - 1], change);
      if |left.entries| > 0 then before + [left] else before
  }

  lemma {:induction false} MissingMember(entries: seq<Entry>, member: nat)
    requires forall e: Entry :: e in entries ==> e.member != member
    ensures StatusOf(entries, member) == None
  {
    if entries != [] {
      MissingMember(entries[..|entries| - 1], member);
    }
  }

  lemma {:induction false} UnsentIsPart(entries: seq<Entry>, sent: seq<Entry>)
    requires OncePerMember(entries)
    ensures OncePerMember(Unsent(entries, sent))
    ensures forall e: Entry :: e in Unsent(entries, sent) ==> e in entries
  {
    if entries != [] {
      var n := |entries| - 1;
      UnsentIsPart(entries[..n], sent);
      var rest := Unsent(entries[..n], sent);
      forall i: nat | i < |rest|
        ensures rest[i].member != entries[n].member
      {
        assert rest[i] in entries[..n];
      }
    }
  }

  lemma {:induction false} UnsentStatus(entries: seq<Entry>, sent: seq<Entry>, member: nat)
    requires OncePerMember(entries)
    ensures StatusOf(Unsent(entries, sent), member)
         == if StatusOf(entries, member).Some? && Entry(member, StatusOf(entries, member).value) in sent then None
            else StatusOf(entries, member)
  {
    if entries != [] {
      var n := |entries| - 1;
      var last, rest := entries[n], Unsent(entries[..n], sent);
      UnsentStatus(entries[..n], sent, member);
      StatusOfOneMore(rest, last, member);
      assert last == Entry(last.member, last.status);
      if last in sent {
        if last.member == member {
          UnsentIsPart(entries[..n], sent);
          MissingMember(rest, member);
        }
      }
    }
  }

  /** Acknowledging brings no occurrence into the queue. */
  lemma {:induction false} AcknowledgedIsPart(queue: seq<Change>, change: Change)
    requires IsQueue(queue)
    ensures IsQueue(Acknowledged(queue, change))
    ensures forall q: Change :: q in Acknowledged(queue, change) ==> Place(queue, q) < |queue|
  {
    if queue != [] {
      var n := |queue| - 1;
      AcknowledgedIsPart(queue[..n], change);
      UnsentIsPart(queue[n].entries, change.entries);
      var rest := Acknowledged(queue[..n], change);
      forall i: nat | i < |rest|
        ensures !SameOccurrence(rest[i], queue[n])
      {
        var j := Place(queue[..n], rest[i]);
        assert rest[i] in rest && !SameOccurrence(queue[j], queue[n]);
      }
    }
  }

  lemma QueuedOneMore(queue: seq<Change>, c: Change, k: Key)
    ensures Queued(queue + [c], k) == if About(c, k) then StatusOf(c.entries, k.member) else Queued(queue, k)
  {
    assert (queue + [c])[..|queue|] == queue;
  }

  lemma AcknowledgedElsewhere(queue: seq<Change>, change: Change, k: Key)
    requires IsQueue(queue) && queue != [] && About(queue[|queue| - 1], k)
    ensures Queued(Acknowledged(queue[..|queue| - 1], change), k) == None
  {
    var n := |queue| - 1;
    var rest := Acknowledged(queue[..n], change);
    AcknowledgedIsPart(queue[..n], change);
    forall i: nat | i < |rest|
      ensures !About(rest[i], k)
    {
      var j := Place(queue[..n], rest[i]);
      assert rest[i] in rest && !SameOccurrence(queue[j], queue[n]);
    }
    QueuedNowhere(rest, k);
  }

  /** Exactly the statuses that were sent as they still are leave the queue. */
  lemma {:induction false} AcknowledgedStatus(queue: seq<Change>, change: Change, k: Key)
    requires IsQueue(queue)
    ensures Queued(Acknowledged(queue, change), k)
         == if About(change, k) && Queued(queue, k).Some? && Entry(k.member, Queued(queue, k).value) in change.entries
            then None else Queued(queue, k)
  {
    if queue != [] {
      var n := |queue| - 1;
      var last, rest := queue[n], Acknowledged(queue[..n], change);
      var left := Left(last, change);
      AcknowledgedStatus(queue[..n], change, k);
      QueuedOneMore(rest, left, k);
      if About(last, k) {
        UnsentStatus(last.entries, change.entries, k.member);
        AcknowledgedElsewhere(queue, change, k);
      }
    }
  }

  // ---------- The client ----------

  datatype Answer = Accepted | Rejected | Unreachable

  class Client {
    var queue: seq<Change>
    var flushing: bool
    /** The changes the running flush goes through, the one being sent, and how many were sent. */
    var snapshot: seq<Change>
    var at: nat
    var sent: nat

    ghost predicate Valid()
      reads this
    {
      flushing ==> at < |snapshot|
    }

    constructor ()
      ensures Valid() && queue == [] && !flushing
    {
      queue, flushing, snapshot, at, sent := [], false, [], 0, 0;
    }

    /** TypeScript: enqueue. */
    method Enqueue(change: Change)
      modifies this`queue
      ensures queue == Enqueued(old(queue), change)
    {
      var target := 0;
      while target < |queue| && !SameOccurrence(queue[target], change)
        invariant target <= |queue|
        invariant forall i: nat :: i < target ==> !SameOccurrence(queue[i], change)
      {
        target := target + 1;
      }
      assert target == Place(queue, change);
      var entries := if target < |queue| then queue[target].entries else [];
      var before := entries;
      for i := 0 to |change.entries|
        invariant entries == Merged(before, change.entries[..i])
      {
        assert change.entries[..i + 1][..i] == change.entries[..i];
        entries := WithoutMember(entries, change.entries[i].member) + [change.entries[i]];
      }
      assert change.entries[..|change.entries|] == change.entries;
      if target < |queue| {
        queue := queue[target := queue[target].(entries := entries)];
      } else {
        queue := queue + [change.(entries := entries)];
      }
    }

    /** TypeScript: the rewriting of the queue after a change was sent. */
    method Acknowledge(change: Change)
      modifies this`queue
      ensures queue == Acknowledged(old(queue), change)
    {
      var kept: seq<Change> := [];
      for i := 0 to |queue|
        invariant queue == old(queue) && kept == Acknowledged(queue[..i], change)
      {
        assert queue[..i + 1][..i] == queue[..i];
        var left := Left(queue[i], change);
        if |left.entries| > 0 {
          kept := kept + [left];
        }
      }
      assert queue[..|queue|] == queue;
      queue := kept;
    }

    /**
     * TypeScript: flushAttendanceQueue up to its first await. The request it sends, or none when a flush is running
     * or there is nothing to send.
     */
    method StartFlush() returns (request: Option<Change>)
      requires Valid()
      modifies this
      ensures Valid() && queue == old(queue)
      ensures old(flushing) ==>
        request == None && flushing && snapshot == old(snapshot) && at == old(at) && sent == old(sent)
      ensures !old(flushing) ==> flushing == (queue != []) && request == if queue != [] then Some(queue[0]) else None
      ensures !old(flushing) && flushing ==> snapshot == queue && at == 0 && sent == 0
    {
      if flushing {
        return None;
      }
      snapshot, at, sent := queue, 0, 0;
      flushing := |snapshot| > 0;
      return if flushing then Some(snapshot[0]) else None;
    }

    /**
     * TypeScript: the loop body after its await, up to the next request. Rejected stands for the answers 400 and
     * 404, Unreachable for all other failures.
     */
    method Resume(answer: Answer) returns (request: Option<Change>)
      requires Valid() && flushing
      modifies this
      ensures Valid()
      ensures queue == if answer == Unreachable then old(queue) else Acknowledged(old(queue), old(snapshot)[old(at)])
      ensures flushing == (answer != Unreachable && old(at) + 1 < |old(snapshot)|)
      ensures flushing ==> snapshot == old(snapshot) && at == old(at) + 1
      ensures request == if flushing then Some(snapshot[at]) else None
      ensures sent == old(sent) + if answer == Accepted then 1 else 0
    {
      var change := snapshot[at];
      if answer == Accepted {
        sent := sent + 1;
      } else if answer == Unreachable {
        flushing := false;
        return None;
      }
      Acknowledge(change);
      if at + 1 < |snapshot| {
        at := at + 1;
        return Some(snapshot[at]);
      }
      flushing := false;
      return None;
    }
  }
}
