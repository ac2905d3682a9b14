/**
 * The hand-over of one batch at a time from the connection worker to the
 * renderer.  Each method body is one stretch of code under the monitor's
 * mutex; waiting on the condition ends a stretch and waking starts another.
 */
module VisibleIngress {
  import opened Wrappers
  import opened Errno

  type Batch = nat  // which bytes, by name

  // ---------------------------------------------------------------- reference

  // What the monitor is for: tickets 0, 1, 2, ... one after another, each submitted, claimed at
  // most once, completed at most once, and answered with its completion unless stopped.
  datatype Phase = Free | Ready | Claimed | Done(status: int)

  datatype Reference = Reference(ticket: nat, phase: Phase, batch: Batch, stopped: bool)

  datatype Event =
    | Submitted(ticket: nat, batch: Batch)
    | Taken(ticket: nat, batch: Batch)
    | Completed(ticket: nat, status: int)
    | Answered(ticket: nat, status: int)
    | Stopped

  function Follow(r: Reference, e: Event): Option<Reference> {
    match e
    case Submitted(t, b) =>
      if t == r.ticket && r.phase.Free? && !r.stopped then Some(r.(phase := Ready, batch := b)) else None
    case Taken(t, b) =>
      if t == r.ticket && r.phase.Ready? && b == r.batch && !r.stopped then Some(r.(phase := Claimed)) else None
    case Completed(t, status) =>
      if t == r.ticket && r.phase.Claimed? && status <= 0 then Some(r.(phase := Done(status))) else None
    case Answered(t, status) =>
      if t == r.ticket && (if r.stopped then !r.phase.Free? && status == ECANCELED else r.phase == Done(status))
      then Some(r.(ticket := r.ticket + 1, phase := Free, batch := 0)) else None
    case Stopped => Some(r.(stopped := true))
  }

  function FollowAll(log: seq<Event>): Option<Reference> {
    if log == [] then Some(Reference(0, Free, 0, false))
    else
      match FollowAll(log[..|log| - 1])
      case None => None
      case Some(r) => Follow(r, log[|log| - 1])
  }

  lemma FollowSnoc(log: seq<Event>, e: Event)
    requires FollowAll(log).Some?
    ensures FollowAll(log + [e]) == Follow(FollowAll(log).value, e)
  {
    assert (log + [e])[..|log|] == log;
  }

  lemma NextEvent(log: seq<Event>, r: Reference, e: Event, r': Reference)
    requires FollowAll(log) == Some(r) && Follow(r, e) == Some(r')
    ensures FollowAll(log + [e]) == Some(r')
  {
    FollowSnoc(log, e);
  }

  predicate SameKind(a: Event, b: Event) {
    && !a.Stopped? && !b.Stopped?
    && a.Submitted? == b.Submitted? && a.Taken? == b.Taken? && a.Completed? == b.Completed?
  }

  // Each ticket is submitted, claimed, completed and answered at most once, in ticket order.
  ghost predicate OncePerTicket(log: seq<Event>) {
    forall i, j :: 0 <= i < j < |log| && SameKind(log[i], log[j]) ==> log[i].ticket < log[j].ticket
  }

  // No claim without its submission, no completion without its claim, no answer without its
  // completion or a stop.
  ghost predicate Justified(log: seq<Event>) {
    forall j :: 0 <= j < |log| ==> JustifiedAt(log, j)
  }

  ghost predicate JustifiedAt(log: seq<Event>, j: nat)
    requires j < |log|
  {
    match log[j]
    case Taken(t, b) => Submitted(t, b) in log[..j]
    case Completed(t, _) => exists b :: Taken(t, b) in log[..j]
    case Answered(t, status) => (if Stopped in log[..j] then status == ECANCELED else Completed(t, status) in log[..j])
    case _ => true
  }

  // How far the current ticket has come, in terms of the log.
  ghost predicate Reached(log: seq<Event>, r: Reference) {
    && (forall i :: 0 <= i < |log| && !log[i].Stopped? ==>
          && log[i].ticket <= r.ticket
          && (log[i].ticket == r.ticket ==>
                && !log[i].Answered? && !r.phase.Free?
                && (log[i].Taken? ==> r.phase.Claimed? || r.phase.Done?)
                && (log[i].Completed? ==> r.phase.Done?)))
    && (!r.phase.Free? ==> Submitted(r.ticket, r.batch) in log)
    && (r.phase.Claimed? || r.phase.Done? ==> Taken(r.ticket, r.batch) in log)
    && (r.phase.Done? ==> Completed(r.ticket, r.phase.status) in log)
    && (r.stopped <==> Stopped in log)
  }

  lemma ReachedGrows(log: seq<Event>, r: Reference, e: Event)
    requires Reached(log, r) && Follow(r, e).Some?
    ensures Reached(log + [e], Follow(r, e).value)
  {
    assert forall x :: x in log + [e] <==> x in log || x == e;
  }

  lemma OnceGrows(log: seq<Event>, r: Reference, e: Event)
    requires Reached(log, r) && Follow(r, e).Some? && OncePerTicket(log)
    ensures OncePerTicket(log + [e])
  {
  }

  lemma JustifiedGrows(log: seq<Event>, r: Reference, e: Event)
    requires Reached(log, r) && Follow(r, e).Some? && Justified(log)
    ensures Justified(log + [e])
  {
    var next := log + [e];
    assert next[..|log|] == log;
    forall j | 0 <= j < |next| ensures JustifiedAt(next, j) {
      if j < |log| {
        assert next[..j] == log[..j];
        assert JustifiedAt(log, j);
      }
    }
  }

  // The consequences of following the reference, for any log.
  lemma {:induction false} LogIsOrderly(log: seq<Event>)
    requires FollowAll(log).Some?
    ensures Reached(log, FollowAll(log).value) && OncePerTicket(log) && Justified(log)
  {
    if log != [] {
      var prefix, e := log[..|log| - 1], log[|log| - 1];
      LogIsOrderly(prefix);
      var r := FollowAll(prefix).value;
      assert log == prefix + [e];
      ReachedGrows(prefix, r, e);
      OnceGrows(prefix, r, e);
      JustifiedGrows(prefix, r, e);
    }
  }

  // ---------------------------------------------------------------- the monitor

  class Ingress {
    var stop: bool
    var accepting: bool
    var ready: bool
    var claimed: bool
    var completed: bool
    var status: int
    var batch: Batch
    var waiters: nat     // threads blocked in a wait for a batch
    var ticket: nat      // how many batches have been answered
    var log: seq<Event>

    ghost function PhaseOf(): Phase
      reads this
    {
      if !ready then Free else if !claimed then Ready else if !completed then Claimed else Done(status)
    }

    // The flags are ordered, and the log so far follows the reference to exactly this state.
    ghost predicate Valid()
      reads this
    {
      && (completed ==> claimed) && (claimed ==> ready) && (!ready ==> batch == 0)
      && FollowAll(log) == Some(Reference(ticket, PhaseOf(), batch, stop))
    }

    constructor ()
      ensures Valid() && log == [] && waiters == 0 && !stop && accepting && !ready && ticket == 0
    {
      stop, accepting, ready, claimed, completed := false, true, false, false, false;
      status, batch, waiters, ticket, log := 0, 0, 0, 0, [];
    }

    // submit_batch up to its wait; the caller is then blocked until the batch is answered.
    method SubmitEnter(b: Batch) returns (result: int, blocked: bool)
      requires Valid()
      modifies this
      ensures Valid() && stop == old(stop)
      ensures blocked <==> !old(stop) && old(accepting) && !old(ready)
      ensures log == if blocked then old(log) + [Submitted(ticket, b)] else old(log)
      ensures !blocked ==> result == (if stop then ECANCELED else if !old(accepting) then EAGAIN else EBUSY)
      ensures accepting == old(accepting) && waiters == old(waiters) && ticket == old(ticket)
      ensures PhaseOf() == (if blocked then Ready else old(PhaseOf())) && batch == if blocked then b else old(batch)
    {
      blocked := false;
      if stop {
        result := ECANCELED;
      } else if !accepting {
        result := EAGAIN;
      } else if ready {
        result := EBUSY;
      } else {
        TakeIn(b);
        result, blocked := 0, true;
      }
    }

    method TakeIn(b: Batch)
      requires Valid() && !stop && !ready
      modifies this`log, this`batch, this`ready, this`claimed, this`completed, this`status
      ensures Valid() && PhaseOf() == Ready && batch == b && log == old(log) + [Submitted(ticket, b)]
    {
      NextEvent(log, Reference(ticket, Free, 0, false), Submitted(ticket, b), Reference(ticket, Ready, b, false));
      log := log + [Submitted(ticket, b)];
      batch, ready, claimed, completed, status := b, true, false, false, 0;
    }

    // The blocked submitter wakes: it goes on waiting, or takes the answer and clears the slot.
    method SubmitWake() returns (done: bool, result: int)
      requires Valid() && ready
      modifies this
      ensures Valid() && stop == old(stop)
      ensures done <==> old(completed) || stop
      ensures done ==> result == (if stop then ECANCELED else old(status)) && !ready
      ensures log == if done then old(log) + [Answered(old(ticket), result)] else old(log)
      ensures accepting == old(accepting) && waiters == old(waiters)
      ensures ticket == (if done then old(ticket) + 1 else old(ticket))
      ensures PhaseOf() == (if done then Free else old(PhaseOf())) && batch == if done then 0 else old(batch)
    {
      result := 0;
      done := completed || stop;
      if done {
        result := if stop then ECANCELED else status;
        FollowSnoc(log, Answered(ticket, result));
        log := log + [Answered(ticket, result)];
        batch, ready, claimed, completed, status := 0, false, false, false, 0;
        ticket := ticket + 1;
      }
    }

    // One pass of the waiting loop: claim, give up because of stop, or block.
    method TryClaim() returns (done: bool, result: int, b: Batch)
      requires Valid()
      modifies this
      ensures Valid() && stop == old(stop) && waiters == old(waiters)
      ensures done <==> stop || (old(ready) && !old(claimed))
      ensures done ==> result == if stop then ECANCELED else 0
      ensures log == if done && !stop then old(log) + [Taken(ticket, b)] else old(log)
      ensures b == (if done && !stop then batch else 0) && batch == old(batch) && ticket == old(ticket)
      ensures if done && !stop then PhaseOf() == Claimed && !accepting else PhaseOf() == old(PhaseOf()) && accepting == old(accepting)
    {
      done, result, b := false, 0, 0;
      if stop {
        return true, ECANCELED, 0;
      }
      if ready && !claimed {
        FollowSnoc(log, Taken(ticket, batch));
        log := log + [Taken(ticket, batch)];
        accepting := false;
        claimed := true;
        done, b := true, batch;
      }
    }

    // A wait opens the door for the next batch, and closes it when it takes one at once.
    method WaitEnter() returns (done: bool, result: int, b: Batch)
      requires Valid()
      modifies this
      ensures Valid() && stop == old(stop) && batch == old(batch) && ticket == old(ticket)
      ensures done <==> stop || (old(ready) && !old(claimed))
      ensures b == if done && !stop then batch else 0
      ensures if done && !stop then PhaseOf() == Claimed && !accepting else PhaseOf() == old(PhaseOf()) && accepting
      ensures done ==> result == if stop then ECANCELED else 0
      ensures log == if done && !stop then old(log) + [Taken(ticket, b)] else old(log)
      ensures waiters == if done then old(waiters) else old(waiters) + 1
    {
      accepting := true;
      done, result, b := TryClaim();
      if !done {
        waiters := waiters + 1;
      }
    }

    // A blocked waiter wakes.  A timeout takes nothing: a batch that is ready stays ready.
    method WaitWake(timedOut: bool) returns (done: bool, result: int, b: Batch)
      requires Valid() && waiters > 0
      modifies this
      ensures Valid() && stop == old(stop)
      ensures timedOut ==> done && result == ETIMEDOUT && !accepting && PhaseOf() == old(PhaseOf()) && log == old(log)
      ensures !timedOut ==> (done <==> stop || (old(ready) && !old(claimed)))
      ensures !timedOut ==> log == if done && !stop then old(log) + [Taken(ticket, b)] else old(log)
      ensures waiters == if done then old(waiters) - 1 else old(waiters)
      ensures batch == old(batch) && ticket == old(ticket)
      ensures !timedOut && done ==> result == if stop then ECANCELED else 0
      ensures b == if !timedOut && done && !stop then batch else 0
      ensures !timedOut ==>
        if done && !stop then PhaseOf() == Claimed && !accepting else PhaseOf() == old(PhaseOf()) && accepting == old(accepting)
    {
      if timedOut {
        accepting := false;
        waiters := waiters - 1;
        return true, ETIMEDOUT, 0;
      }
      done, result, b := TryClaim();
      if done {
        waiters := waiters - 1;
      }
    }

    method Complete(answer: int, acceptNext: bool) returns (result: int)
      requires Valid()
      modifies this
      ensures Valid() && stop == old(stop)
      ensures result == if answer <= 0 && old(ready && claimed && !completed) then 0 else EINVAL
      ensures log == if result == 0 then old(log) + [Completed(ticket, answer)] else old(log)
      ensures accepting == if result == 0 then acceptNext && answer == 0 else old(accepting)
      ensures PhaseOf() == (if result == 0 then Done(answer) else old(PhaseOf())) && batch == old(batch)
      ensures waiters == old(waiters) && ticket == old(ticket)
    {
      if answer > 0 || !ready || !claimed || completed {
        return EINVAL;
      }
      FollowSnoc(log, Completed(ticket, answer));
      log := log + [Completed(ticket, answer)];
      status := answer;
      completed := true;
      accepting := acceptNext && answer == 0;
      result := 0;
    }

    // The step of destroy that ends the service.
    method Stop()
      requires Valid()
      modifies this
      ensures Valid() && stop && log == old(log) + [Stopped] && PhaseOf() == old(PhaseOf())
      ensures batch == old(batch) && accepting == old(accepting) && waiters == old(waiters) && ticket == old(ticket)
    {
      FollowSnoc(log, Stopped);
      log := log + [Stopped];
      stop := true;
    }
  }

  // A batch that goes all the way: a waiter blocks, the batch is submitted, the waiter wakes with it,
  // completes it, and the submitter wakes with the completion's status; and so again and again.
  method HandOver(batches: seq<(Batch, int, bool)>) returns (taken: seq<Batch>, answers: seq<int>)
    requires forall i :: 0 <= i < |batches| ==> batches[i].1 <= 0
    ensures |taken| == |answers| == |batches|
    ensures forall i :: 0 <= i < |batches| ==> taken[i] == batches[i].0 && answers[i] == batches[i].1
  {
    var ingress := new Ingress();
    taken, answers := [], [];
    for i := 0 to |batches|
      invariant fresh(ingress) && ingress.Valid() && !ingress.stop && !ingress.ready && ingress.waiters == 0
      invariant |taken| == |answers| == i
      invariant forall k :: 0 <= k < i ==> taken[k] == batches[k].0 && answers[k] == batches[k].1
    {
      var done, result, b := ingress.WaitEnter();
      var refused, blocked := ingress.SubmitEnter(batches[i].0);
      done, result, b := ingress.WaitWake(false);
      taken := taken + [b];
      var completed := ingress.Complete(batches[i].1, batches[i].2);
      done, result := ingress.SubmitWake();
      answers := answers + [result];
    }
  }

  datatype Action =
    | DoSubmit(batch: Batch)
    | DoSubmitWake
    | DoWait
    | DoWaitWake(timedOut: bool)
    | DoComplete(status: int, acceptNext: bool)
    | DoStop

  // Any interleaving of the critical sections; a wake-up of a thread that is not blocked does
  // not happen.
  method Run(actions: seq<Action>) returns (log: seq<Event>)
    ensures FollowAll(log).Some?
    ensures OncePerTicket(log) && Justified(log)
  {
    var ingress := new Ingress();
    for i := 0 to |actions|
      invariant fresh(ingress) && ingress.Valid()
    {
      match actions[i]
      case DoSubmit(b) =>
        var result, blocked := ingress.SubmitEnter(b);
      case DoSubmitWake =>
        if ingress.ready {
          var done, result := ingress.SubmitWake();
        }
      case DoWait =>
        var done, result, b := ingress.WaitEnter();
      case DoWaitWake(timedOut) =>
        if ingress.waiters > 0 {
          var done, result, b := ingress.WaitWake(timedOut);
        }
      case DoComplete(status, acceptNext) =>
        var result := ingress.Complete(status, acceptNext);
      case DoStop =>
        ingress.Stop();
    }
    log := ingress.log;
    LogIsOrderly(log);
  }
}
