/** Power commands against a PVE that may answer anything at any time. */
module PowerTransitions {
  import opened Common

  datatype Action = Start | Stop | Shutdown | Reboot | Suspend | Resume

  datatype Power = Running | Stopped | Suspended

  /** A guest's status as PVE reports it. */
  datatype Status = Status(running: bool, stopped: bool, paused: bool)

  /** What the text of an error claims. */
  datatype Fault = Fault(alreadyDesired: bool, alreadyStarted: bool, notRunning: bool)

  datatype Reply = Accepted(task: bool) | Rejected(fault: Fault)

  datatype Outcome = Verified(power: Power) | Submitted | Failed

  datatype Event = Read(seen: Option<Status>) | Post(action: Action, reply: Reply)

  function Posts(log: seq<Event>): seq<Action> {
    if log == [] then []
    else
      var before, last := Posts(log[..|log| - 1]), log[|log| - 1];
      if last.Post? then before + [last.action] else before
  }

  predicate SawStopped(log: seq<Event>) {
    exists e :: e in log && e.Read? && e.seen.Some? && e.seen.value.stopped
  }

  /** Every start was sent after a read that showed the guest stopped. */
  predicate StartsAfterStopped(log: seq<Event>) {
    log != [] ==>
      var before, last := log[..|log| - 1], log[|log| - 1];
      StartsAfterStopped(before) && (last.Post? && last.action == Start ==> SawStopped(before))
  }

  /** What a status must show for a state to be reported. */
  predicate Shows(s: Status, p: Power, resuming: bool) {
    match p
    case Running => s.running && (resuming ==> !s.paused)
    case Stopped => s.stopped
    case Suspended => s.paused
  }

  /** The last thing the run did was a read that shows the reported state. */
  predicate Backed(log: seq<Event>, p: Power, resuming: bool) {
    && log != [] && log[|log| - 1].Read? && log[|log| - 1].seen.Some?
    && Shows(log[|log| - 1].seen.value, p, resuming)
  }

  /** The state an action leads to, if repeating it would change nothing. */
  function Desired(a: Action): Option<Power> {
    match a
    case Start => Some(Running)
    case Stop => Some(Stopped)
    case Shutdown => Some(Stopped)
    case _ => None
  }

  predicate Has(s: Status, p: Power) {
    match p
    case Running => s.running
    case Stopped => s.stopped
    case Suspended => s.paused
  }

  predicate Resumed(s: Status) {
    s.running && !s.paused
  }

  /** The first call of a run that started after `was`, which is always a read. */
  predicate FirstRead(was: seq<Event>, log: seq<Event>) {
    was < log && log[|was|].Read?
  }

  predicate FirstSaw(was: seq<Event>, log: seq<Event>, running: bool) {
    && FirstRead(was, log) && log[|was|].seen.Some?
    && if running then log[|was|].seen.value.running else log[|was|].seen.value.stopped
  }

  class Client {
    /** The reads and requests of this run, in order. */
    ghost var log: seq<Event>

    constructor ()
      ensures log == []
    {
      log := [];
    }

    method Current() returns (s: Option<Status>)
      modifies this
      ensures log == old(log) + [Read(s)]
      ensures Posts(log) == Posts(old(log)) && (old(StartsAfterStopped(log)) ==> StartsAfterStopped(log))
      ensures s.Some? && s.value.stopped ==> SawStopped(log)
      ensures old(SawStopped(log)) ==> SawStopped(log)
      ensures s.Some? ==> forall p, r :: Shows(s.value, p, r) ==> Backed(log, p, r)
    {
      s := *;
      ghost var was := log;
      log := log + [Read(s)];
      assert log[..|log| - 1] == was;
      assert Read(s) in log;
    }

    /** Send one request; `resuming` commands may start a guest only after seeing it stopped. */
    method Send(a: Action, ghost resuming: bool) returns (r: Reply)
      requires resuming && a == Start ==> SawStopped(log)
      modifies this
      ensures log == old(log) + [Post(a, r)]
      ensures Posts(log) == Posts(old(log)) + [a]
      ensures resuming && old(StartsAfterStopped(log)) ==> StartsAfterStopped(log)
      ensures old(SawStopped(log)) ==> SawStopped(log)
    {
      r := *;
      ghost var was := log;
      log := log + [Post(a, r)];
      assert log[..|log| - 1] == was;
    }

    /** Wait for a task; it ends well or with an error text. */
    method Await() returns (fault: Option<Fault>)
    {
      fault := *;
    }

    /** Start, stop, shutdown and reboot: at most one request, and a verified result
        only for a state that a read of this run showed. */
    method Lifecycle(a: Action, ghost resuming: bool) returns (o: Outcome)
      requires a == Start || a == Stop || a == Shutdown || a == Reboot
      requires resuming ==> a == Start && SawStopped(log)
      modifies this
      ensures Posts(log) == Posts(old(log)) || Posts(log) == Posts(old(log)) + [a]
      ensures o.Verified? ==> Backed(log, o.power, false) && a != Reboot && (o.power == Running <==> a == Start) && o.power != Suspended
      // A request is sent exactly when the first read succeeds and calls for it.
      ensures FirstRead(old(log), log)
      ensures log[|old(log)|].seen == None ==> o == Failed && Posts(log) == Posts(old(log))
      ensures log[|old(log)|].seen.Some? ==>
                (Posts(log) == Posts(old(log)) + [a] <==>
                 if a == Reboot then FirstSaw(old(log), log, true) else !FirstSaw(old(log), log, a == Start))
      ensures resuming && old(StartsAfterStopped(log)) ==> StartsAfterStopped(log)
      // An accepted request is left to its task.
      ensures o == Submitted <==> log[|log| - 1].Post? && log[|log| - 1].reply.Accepted?
      // A refused request is looked into only if it says that nothing was left to do.
      ensures log[|log| - 1].Post? ==>
                o == (if log[|log| - 1].reply.Accepted? then Submitted else Failed)
                && (log[|log| - 1].reply.Accepted? || !log[|log| - 1].reply.fault.alreadyDesired)
      ensures |log| == |old(log)| + 3 ==>
                && log[|log| - 2].Post? && log[|log| - 2].reply.Rejected? && log[|log| - 2].reply.fault.alreadyDesired
                && (o.Verified? <==> a != Reboot && FirstSaw(log[..|log| - 1], log, a == Start))
    {
      var current := Current();
      if current == None {
        return Failed;
      }
      if a == Reboot {
        if !current.value.running {
          return Failed;
        }
      } else if Has(current.value, Desired(a).value) {
        return Verified(Desired(a).value);
      }
      var r := Send(a, resuming);
      if r.Accepted? {
        return Submitted;
      }
      if !r.fault.alreadyDesired {
        return Failed;
      }
      var observed := Current();
      if observed.Some? && Desired(a).Some? && Has(observed.value, Desired(a).value) {
        return Verified(Desired(a).value);
      }
      return Failed;
    }

    /** The one start that a failed resume may send, and its proof. */
    method StartStopped() returns (o: Outcome)
      requires SawStopped(log)
      modifies this
      ensures Posts(log) == Posts(old(log)) + [Start]
      ensures o.Verified? ==> o.power == Running && Backed(log, Running, true)
      ensures old(StartsAfterStopped(log)) ==> StartsAfterStopped(log)
      ensures old(log) <= log
    {
      var r := Send(Start, true);
      var fault := None;
      if r.Rejected? {
        fault := Some(r.fault);
      } else if r.task {
        fault := Await();
      }
      if fault.Some? && !fault.value.alreadyDesired {
        return Failed;
      }
      var observed := Current();
      return if observed.Some? && Resumed(observed.value) then Verified(Running) else Failed;
    }

    /** What a suspend or resume does about an error, from the request or its task. */
    method Converge(a: Action, fault: Fault) returns (o: Outcome)
      requires a == Suspend || a == Resume
      modifies this
      ensures Posts(log) == Posts(old(log)) || (a == Resume && Posts(log) == Posts(old(log)) + [Start])
      ensures o.Verified? ==> Backed(log, o.power, a == Resume)
      ensures o.Verified? ==> o.power == if a == Suspend then Stopped else Running
      ensures old(StartsAfterStopped(log)) ==> StartsAfterStopped(log)
      ensures old(log) <= log
      // Only what the error claims is looked for, and only a claim of being stopped can
      // lead to a start.
      ensures !fault.notRunning && !(a == Resume && fault.alreadyStarted) ==> o == Failed && log == old(log)
      ensures Posts(log) != Posts(old(log)) ==> fault.notRunning
      ensures a == Suspend && fault.notRunning ==>
                FirstRead(old(log), log) && (o == Verified(Stopped) <==> FirstSaw(old(log), log, false))
    {
      if a == Suspend && fault.notRunning {
        var observed := Current();
        if observed.Some? && observed.value.stopped {
          return Verified(Stopped);
        }
      }
      if a == Resume && fault.alreadyStarted {
        var observed := Current();
        if observed.Some? && Resumed(observed.value) {
          return Verified(Running);
        }
      }
      if a == Resume && fault.notRunning {
        var observed := Current();
        if observed.Some? && observed.value.stopped {
          o := StartStopped();
          return;
        }
      }
      return Failed;
    }

    /** The read that must show the transition. */
    method Confirm(a: Action) returns (o: Outcome)
      requires a == Suspend || a == Resume
      modifies this
      ensures Posts(log) == Posts(old(log))
      ensures o.Verified? ==> Backed(log, o.power, a == Resume)
      ensures o.Verified? ==> o.power == if a == Suspend then Suspended else Running
      ensures old(StartsAfterStopped(log)) ==> StartsAfterStopped(log)
      ensures old(log) <= log
      ensures |log| == |old(log)| + 1 && FirstRead(old(log), log)
      ensures o.Verified? <==>
                log[|old(log)|].seen.Some?
                && (if a == Suspend then log[|old(log)|].seen.value.paused else Resumed(log[|old(log)|].seen.value))
    {
      var current := Current();
      if current == None || (a == Suspend && !current.value.paused) || (a == Resume && !Resumed(current.value)) {
        return Failed;
      }
      return Verified(if a == Suspend then Suspended else Running);
    }

    method Request(a: Action) returns (o: Outcome)
      requires a == Suspend || a == Resume
      modifies this
      ensures Posts(log) == Posts(old(log)) + [a] || (a == Resume && Posts(log) == Posts(old(log)) + [a, Start])
      ensures o.Verified? ==> Backed(log, o.power, a == Resume)
      ensures o.Verified? ==> (o.power == Running <==> a == Resume)
      ensures old(StartsAfterStopped(log)) ==> StartsAfterStopped(log)
      ensures old(log) <= log
    {
      var r := Send(a, true);
      var fault := None;
      if r.Rejected? {
        fault := Some(r.fault);
      } else if r.task {
        fault := Await();
      }
      if fault.Some? {
        o := Converge(a, fault.value);
      } else {
        o := Confirm(a);
      }
    }

    /** Suspend sends at most one request. */
    method SuspendGuest() returns (o: Outcome)
      requires log == []
      modifies this
      ensures Posts(log) == [] || Posts(log) == [Suspend]
      ensures o.Verified? ==> Backed(log, o.power, false)
      // Nothing is sent exactly when the first read shows the guest stopped.
      ensures FirstRead([], log)
      ensures Posts(log) == [] <==> FirstSaw([], log, false)
      ensures FirstSaw([], log, false) ==> o == Verified(Stopped)
    {
      var current := Current();
      if current.Some? && current.value.stopped {
        return Verified(Stopped);
      }
      o := Request(Suspend);
    }

    /** Resume sends at most one resume, then at most one start; a start only after a
        read showed the guest stopped. */
    method ResumeGuest() returns (o: Outcome)
      requires log == []
      modifies this
      ensures Posts(log) == [] || Posts(log) == [Resume] || Posts(log) == [Start] || Posts(log) == [Resume, Start]
      ensures StartsAfterStopped(log)
      ensures o.Verified? ==> o.power == Running && Backed(log, Running, Resume in Posts(log))
      // A failed read sends nothing; a stopped guest is started and not resumed, unless a
      // second read shows it running; a resumed one needs nothing; any other is resumed.
      ensures FirstRead([], log)
      ensures log[0].seen == None ==> o == Failed && Posts(log) == []
      ensures FirstSaw([], log, false) ==> Posts(log) == [] || Posts(log) == [Start]
      ensures FirstSaw([], log, false) ==>
                |log| > 1 && log[1].Read?
                && (Posts(log) == [Start] <==> log[1].seen.Some? && !log[1].seen.value.running)
      ensures log[0].seen.Some? && !log[0].seen.value.stopped && Resumed(log[0].seen.value) ==> o == Verified(Running) && Posts(log) == []
      ensures log[0].seen.Some? && !log[0].seen.value.stopped && !Resumed(log[0].seen.value) ==> Resume in Posts(log)
    {
      var current := Current();
      if current == None {
        return Failed;
      }
      if current.value.stopped {
        o := Lifecycle(Start, true);
        return;
      }
      if Resumed(current.value) {
        return Verified(Running);
      }
      o := Request(Resume);
      assert Posts(log)[0] == Resume;
    }
  }
}
