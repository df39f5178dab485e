/** One locked, deadline-bounded sequence of reports on the USB HID keyboard gadget.

    Times are whole microseconds. Time passes only in the calls to the system, by any amount; a
    poll takes at least one tick. The device may stall, answer EAGAIN or EINTR, write short, fail,
    wake late, and a signal may interrupt any call, before or after its effect. */
module HidInput {
  import opened Arithmetic
  import opened Wrappers

  const START_TIMEOUT := 1_000_000
  const REPORT_TIMEOUT := 1_000_000
  const IO_BUDGET := 2_000_000
  const REPORT_ALLOWANCE := 50_000
  const CLEANUP_TIMEOUT := 250_000
  const RETRY_INTERVAL := 10_000
  const POLL_ROUNDING := 999  // a poll waits whole milliseconds, rounded up
  const REPORT_BYTES := 8

  datatype Report = Report(modifier: int, key: int)
  const NEUTRAL := Report(0, 0)

  predicate IsBytes(r: Report) { 0 <= r.modifier < 256 && 0 <= r.key < 256 }

  /** `count` bytes of a report handed to the device at time `at`; the report was asked for at
      `asked`, after `paused` microseconds of completed pauses. */
  datatype Submission = Submission(report: Report, count: int, at: int, asked: int, paused: int)

  datatype Raised = HidError | OsError | Interrupt | BadValue | SystemExit

  datatype Event = Event(mine: bool, ready: bool, broken: bool)
  datatype PollReply = Events(events: seq<Event>) | PollRetry | PollSignal
  datatype WriteReply = Wrote(count: int) | WouldBlock | WriteRetry | WriteFailed | WriteSignal

  /** A call that opens the lock file, asks for the lock, or opens the device. */
  datatype Call = OpenLock | TryLock(granted: bool) | OpenDevice

  /** The lock file was opened, the lock asked for until it was granted, and then the device opened. */
  ghost predicate Entered(before: seq<Call>, after: seq<Call>) {
    && before <= after && |after| >= |before| + 3
    && after[|before|] == OpenLock && after[|after| - 2] == TryLock(true) && after[|after| - 1] == OpenDevice
    && forall i | |before| < i < |after| - 2 :: after[i] == TryLock(false)
  }

  /** The event says that the device is gone, or that it takes a report. */
  predicate Tells(e: Event) { e.mine && (e.broken || e.ready) }

  /** The first event that tells anything says that the device takes a report. */
  ghost predicate Usable(events: seq<Event>) {
    exists k | 0 <= k < |events| ::
      events[k].mine && events[k].ready && !events[k].broken && forall j | 0 <= j < k :: !Tells(events[j])
  }

  /** The first event that tells anything says that the device is gone. */
  ghost predicate Gone(events: seq<Event>) {
    exists k | 0 <= k < |events| :: events[k].mine && events[k].broken && forall j | 0 <= j < k :: !Tells(events[j])
  }

  /** A poll after which there is nothing to do but to poll again. */
  ghost predicate TellsNothing(reply: PollReply) {
    match reply
    case Events(events) => forall j | 0 <= j < |events| :: !Tells(events[j])
    case PollRetry => true
    case PollSignal => false
  }

  /** The device and the clock. `sent` is what this sequence has handed over; `overrun` is the time
      calls have taken beyond the waits they were asked for; `polls` is every answer to a poll,
      `calls` every call made to enter, and `troubles` counts the calls that failed, were interrupted, found the device gone or wrote
      short. */
  class Device {
    var now: int
    ghost var sent: seq<Submission>
    ghost var overrun: int
    ghost var polls: seq<PollReply>
    ghost var calls: seq<Call>
    ghost var troubles: nat

    constructor (now: int)
      ensures this.now == now && sent == [] && overrun == 0 && polls == [] && calls == [] && troubles == 0
    {
      this.now, sent, overrun, polls, calls, troubles := now, [], 0, [], [], 0;
    }

    /** The clock, less the overrun. */
    ghost function Charged(): int
      reads this
    {
      now - overrun
    }

    /** A call that was asked for no wait. */
    method Pass()
      modifies this`now, this`overrun
      ensures now >= old(now) && overrun >= old(overrun) && Charged() == old(Charged())
    {
      var t :| now <= t;
      overrun := overrun + (t - now);
      now := t;
    }

    /** An open or a lock attempt, made only before the limit: it may fail, or a signal may interrupt it. */
    method Make(call: Call, ghost limit: int) returns (problem: Option<Raised>)
      requires now < limit
      modifies this`now, this`overrun, this`troubles, this`calls
      ensures calls == old(calls) + [call]
      ensures now >= old(now) && overrun >= old(overrun) && Charged() == old(Charged())
      ensures problem in {None, Some(OsError), Some(Interrupt)}
      ensures troubles == old(troubles) + if problem.Some? then 1 else 0
    {
      calls := calls + [call];
      Pass();
      var fails: bool, signalled: bool := *, *;
      problem := if fails then Some(OsError) else if signalled then Some(Interrupt) else None;
      if problem.Some? { troubles := troubles + 1; }
    }

    /** A close: it may fail. */
    method Close() returns (fails: bool)
      modifies this`troubles
      ensures troubles == old(troubles) + if fails then 1 else 0
    {
      fails := *;
      if fails { troubles := troubles + 1; }
    }

    method Poll(timeoutMs: int) returns (reply: PollReply)
      requires timeoutMs > 0
      modifies this`now, this`overrun, this`polls, this`troubles
      ensures now > old(now) && overrun == old(overrun) + Max(0, now - old(now) - timeoutMs * 1000)
      ensures polls == old(polls) + [reply]
      ensures troubles == old(troubles) + if reply.PollSignal? || (reply.Events? && Gone(reply.events)) then 1 else 0
    {
      var t :| now < t;
      overrun := overrun + Max(0, t - now - timeoutMs * 1000);
      now := t;
      reply := *;
      polls := polls + [reply];
      troubles := troubles + if reply.PollSignal? || (reply.Events? && Gone(reply.events)) then 1 else 0;
    }

    /** A write: a count, or an error. Only EAGAIN and EINTR say that nothing was handed over. */
    method Write(report: Report, ghost asked: int, ghost paused: int) returns (reply: WriteReply, ghost taken: int)
      modifies this`now, this`overrun, this`sent, this`troubles
      ensures now >= old(now) && overrun >= old(overrun) && Charged() == old(Charged())
      ensures troubles == old(troubles) + if reply.WouldBlock? || reply.WriteRetry? || reply == Wrote(REPORT_BYTES) then 0 else 1
      ensures 0 <= taken <= REPORT_BYTES && (reply.Wrote? ==> reply.count == taken)
      ensures reply.WouldBlock? || reply.WriteRetry? ==> taken == 0
      ensures sent == if taken == 0 then old(sent) else old(sent) + [Submission(report, taken, old(now), asked, paused)]
    {
      reply := *;
      var n :| 0 <= n <= REPORT_BYTES;
      if reply.Wrote? {
        reply := Wrote(n);
      } else if reply.WouldBlock? || reply.WriteRetry? {
        n := 0;
      }
      if n > 0 {
        sent := sent + [Submission(report, n, now, asked, paused)];
      }
      taken := n;
      troubles := troubles + if reply.WouldBlock? || reply.WriteRetry? || reply == Wrote(REPORT_BYTES) then 0 else 1;
      Pass();
    }

    /** A sleep: at least as long as asked, unless a signal ends it. */
    method Sleep(duration: int) returns (signalled: bool)
      requires 0 <= duration
      modifies this`now, this`overrun, this`troubles
      ensures now >= old(now) && (!signalled ==> now >= old(now) + duration)
      ensures troubles == old(troubles) + if signalled then 1 else 0
      ensures overrun == old(overrun) + Max(0, now - old(now) - duration)
    {
      signalled := *;
      if signalled { troubles := troubles + 1; }
      var least := if signalled then now else now + duration;
      var t :| least <= t;
      overrun := overrun + Max(0, t - now - duration);
      now := t;
    }
  }

  // ---------------------------------------------------------------- the trace

  /** The submissions are the first of the requested reports, in order, each submitted once; only
      the last may be short. */
  predicate InOrder(sent: seq<Submission>, requested: seq<Report>) {
    && |sent| <= |requested|
    && (forall i | 0 <= i < |sent| :: sent[i].report == requested[i] && 0 < sent[i].count <= REPORT_BYTES)
    && (forall i | 0 <= i < |sent| - 1 :: sent[i].count == REPORT_BYTES)
  }

  predicate AllComplete(sent: seq<Submission>) {
    forall i | 0 <= i < |sent| :: sent[i].count == REPORT_BYTES
  }

  /** Every submission came before the total deadline, which only completed pauses and completed
      reports have moved, before its own limit, and the first before the start deadline. */
  predicate Timely(sent: seq<Submission>, requestedAt: int) {
    forall i | 0 <= i < |sent| ::
      && sent[i].at < requestedAt + IO_BUDGET + sent[i].paused + REPORT_ALLOWANCE * i
      && sent[i].asked <= sent[i].at < sent[i].asked + REPORT_TIMEOUT
      && (i == 0 ==> sent[i].at < requestedAt + START_TIMEOUT)
  }

  predicate PausesGrow(sent: seq<Submission>, paused: int) {
    forall i | 0 <= i < |sent| :: 0 <= sent[i].paused <= paused
  }

  /** A whole run: the first `k` submissions are of the sequence, in order and in time, after
      pauses of at most `pauses` in all; one more may follow, the neutral report of cleanup, asked
      for no later than `latest`. */
  predicate RunTrace(sent: seq<Submission>, k: nat, requested: seq<Report>, requestedAt: int, pauses: int, latest: int) {
    && k <= |sent| <= k + 1
    && InOrder(sent[..k], requested) && Timely(sent[..k], requestedAt) && PausesGrow(sent[..k], pauses)
    && (|sent| == k + 1 ==>
          sent[k].report == NEUTRAL && 0 < sent[k].count <= REPORT_BYTES
          && sent[k].asked <= sent[k].at < sent[k].asked + CLEANUP_TIMEOUT && sent[k].asked <= latest)
  }

  /** Every submission of a run of any length has an explicit bound, cleanup included. */
  lemma TotalBound(sent: seq<Submission>, k: nat, requested: seq<Report>, requestedAt: int, pauses: int, latest: int, i: nat)
    requires RunTrace(sent, k, requested, requestedAt, pauses, latest) && i < |sent|
    ensures i < k ==> sent[i].at < requestedAt + IO_BUDGET + pauses + REPORT_ALLOWANCE * (|requested| - 1)
    ensures i == k ==> sent[i].at < latest + CLEANUP_TIMEOUT
  {
    if i < k {
      assert sent[..k][i] == sent[i];
      assert REPORT_ALLOWANCE * i <= REPORT_ALLOWANCE * (|requested| - 1);
    }
  }

  /** What a sequence is doing when it may run into a limit. */
  datatype Phase = Entering | Reporting(asked: int) | Between

  class HidKeyboard {
    const device: Device
    const startDeadline: int
    var deadline: int
    var isOpen: bool     // `fd is not None`
    var hasLock: bool    // `lock_fd is not None`
    var started: bool
    var failed: bool
    // Auxiliary history.
    ghost const requestedAt: int
    ghost var requested: seq<Report>  // reports accepted for writing
    ghost var completed: nat          // of which completed
    ghost var paused: int             // total of the pauses that elapsed
    ghost var begun: int              // total of the pauses that began
    ghost const overrunBefore: int
    ghost const troublesBefore: nat
    ghost var phase: Phase
    ghost var endedAt: int            // when cleanup began

    /** The limit the sequence is held to. */
    ghost function Limit(): int
      reads this
    {
      match phase
      case Entering => startDeadline
      case Reporting(asked) =>
        if started then Min(deadline, asked + REPORT_TIMEOUT) else Min(Min(deadline, asked + REPORT_TIMEOUT), startDeadline)
      case Between => deadline
    }

    /** The limits are what the reports completed and the pauses elapsed have made of them. */
    ghost predicate LimitsStand()
      reads this
    {
      && startDeadline == requestedAt + START_TIMEOUT
      && deadline == requestedAt + IO_BUDGET + paused + REPORT_ALLOWANCE * completed
      && (started <==> completed > 0)
    }

    /** A call went wrong, or the limit has passed. */
    ghost predicate Excused(at: int)
      reads this, device
    {
      device.troubles > troublesBefore || at >= Limit()
    }

    /** The latest the sequence may stand at, whatever it has done, if no call overran. */
    ghost function Horizon(): int
      reads this
    {
      requestedAt - overrunBefore + IO_BUDGET + begun + REPORT_ALLOWANCE * completed + POLL_ROUNDING
    }

    /** The limits and the trace stand as the reports and pauses so far have left them. */
    ghost predicate Stands()
      reads this, device
    {
      && LimitsStand()
      && 0 <= paused <= begun && overrunBefore <= device.overrun && device.Charged() <= Horizon()
      && InOrder(device.sent, requested) && Timely(device.sent, requestedAt) && PausesGrow(device.sent, paused)
      && completed <= |device.sent|
      && troublesBefore <= device.troubles
    }

    /** Holds from the start of a sequence to its cleanup: it has failed only for a reason, and until
        then every report was handed over whole and no call went wrong. */
    ghost predicate Valid()
      reads this, device
    {
      && Stands()
      && (if failed then Excused(device.now) || !AllBytes(requested)
          else completed == |device.sent| == |requested| && AllComplete(device.sent) && device.troubles == troublesBefore)
    }

    constructor (requestedAt: int, device: Device)
      requires device.sent == []
      ensures Fresh() && this.device == device && this.requestedAt == requestedAt && completed == 0
      ensures !isOpen && !hasLock && !failed && requested == [] && paused == 0 && begun == 0
      ensures overrunBefore == device.overrun - Max(0, device.now - requestedAt) && troublesBefore == device.troubles
    {
      this.device := device;
      startDeadline, deadline := requestedAt + START_TIMEOUT, requestedAt + IO_BUDGET;
      isOpen, hasLock, started, failed := false, false, false, false;
      this.requestedAt, requested, completed, paused, begun := requestedAt, [], 0, 0, 0;
      overrunBefore := device.overrun - Max(0, device.now - requestedAt);
      troublesBefore, phase, endedAt := device.troubles, Entering, device.now;
    }

    /** `remaining(deadline)` raises once the deadline has passed. */
    function Remaining(limit: int): int
      reads device
    {
      limit - device.now
    }

    /** Close both descriptors; how many closes failed. */
    method Close() returns (errors: nat)
      modifies this`isOpen, this`hasLock, device`troubles
      ensures !isOpen && !hasLock && errors <= 2 && device.troubles == old(device.troubles) + errors
    {
      errors := 0;
      if isOpen {
        var fails := device.Close();
        if fails { errors := errors + 1; }
      }
      if hasLock {
        var fails := device.Close();
        if fails { errors := errors + 1; }
      }
      isOpen, hasLock := false, false;
    }

    /** Take the lock and open the device before the start deadline, or leave nothing open. It fails
        only when a call went wrong or that deadline has passed. */
    method Enter() returns (raised: Option<Raised>)
      requires Fresh()
      modifies this`isOpen, this`hasLock, this`phase, this`endedAt, device`now, device`overrun, device`troubles, device`calls
      ensures device.now >= old(device.now) && device.overrun >= old(device.overrun) && LimitsStand()
      ensures raised.None? ==> && Valid() && isOpen && hasLock && device.now < startDeadline && phase == Between
                               && Entered(old(device.calls), device.calls)
      ensures raised.Some? ==> !isOpen && !hasLock && Excused(endedAt) && endedAt <= device.now && device.Charged() <= Horizon()
    {
      raised := TryEnter();
      endedAt := device.now;
      if raised.Some? {
        var _ := Close();
      } else {
        phase := Between;
      }
    }

    /** Nothing has been done yet. */
    ghost predicate Fresh()
      reads this, device
    {
      Valid() && !isOpen && !hasLock && !failed && phase == Entering
    }

    method TryEnter() returns (raised: Option<Raised>)
      requires Fresh()
      modifies this`isOpen, this`hasLock, device`now, device`overrun, device`troubles, device`calls
      ensures device.now >= old(device.now) && device.overrun >= old(device.overrun) && device.Charged() <= Horizon()
      ensures raised.None? ==> && Valid() && isOpen && hasLock && device.now < startDeadline
                               && Entered(old(device.calls), device.calls)
      ensures raised.Some? ==> Excused(device.now)
    {
      hide InOrder, Timely, PausesGrow, AllComplete, AllBytes;
      if Remaining(startDeadline) <= 0 { return Some(HidError); }
      var problem := device.Make(OpenLock, startDeadline);
      if problem.Some? { return problem; }
      hasLock := true;
      raised := TakeLock();
      if raised.Some? { return; }
      if Remaining(startDeadline) <= 0 { return Some(HidError); }
      problem := device.Make(OpenDevice, startDeadline);
      if problem.Some? { return problem; }
      isOpen := true;
      if Remaining(startDeadline) <= 0 { return Some(HidError); }
      raised := None;
    }

    /** Ask for the lock until it is free. */
    method TakeLock() returns (raised: Option<Raised>)
      modifies device`now, device`overrun, device`troubles, device`calls
      ensures raised.None? ==> && |device.calls| > |old(device.calls)| && old(device.calls) <= device.calls
                               && device.calls[|device.calls| - 1] == TryLock(true)
                               && forall i | |old(device.calls)| <= i < |device.calls| - 1 :: device.calls[i] == TryLock(false)
      ensures device.now >= old(device.now) && device.overrun >= old(device.overrun)
      ensures WithinLimit(startDeadline, device.Charged(), old(device.Charged()), old(device.overrun))
      ensures if raised.None? then device.troubles == old(device.troubles)
              else device.troubles >= old(device.troubles) && (device.troubles > old(device.troubles) || device.now >= startDeadline)
    {
      while true
        invariant device.now >= old(device.now) && device.overrun >= old(device.overrun) && device.troubles == old(device.troubles)
        invariant old(device.calls) <= device.calls && forall i | |old(device.calls)| <= i < |device.calls| :: device.calls[i] == TryLock(false)
        invariant WithinLimit(startDeadline, device.Charged(), old(device.Charged()), old(device.overrun))
        decreases startDeadline - device.now
      {
        if Remaining(startDeadline) <= 0 { return Some(HidError); }
        var locked: bool := *;
        var problem := device.Make(TryLock(locked), startDeadline);
        if problem.Some? { return problem; }
        if locked { return None; }
        if Remaining(startDeadline) <= 0 { return Some(HidError); }
        var signalled := device.Sleep(Min(RETRY_INTERVAL, Remaining(startDeadline)));
        if signalled { return Some(Interrupt); }
      }
    }

    /** Wait for a free request slot: until a poll says that the device takes a report. It fails only on
        a poll that says that the device is gone, a signal, or a limit that has passed. However late
        the poll returns, success means the limit is still ahead. */
    method Ready(limit: int) returns (raised: Option<Raised>)
      modifies device`now, device`overrun, device`polls, device`troubles
      ensures device.now >= old(device.now) && device.overrun >= old(device.overrun)
      ensures WithinLimit(limit, device.Charged(), old(device.Charged()), old(device.overrun))
      ensures raised.None? ==> device.now < limit && device.now > old(device.now)
      ensures raised in {None, Some(HidError), Some(Interrupt)}
      ensures old(device.polls) <= device.polls
      ensures forall i | |old(device.polls)| <= i < |device.polls| - 1 :: TellsNothing(device.polls[i])
      ensures raised.None? ==> LastPoll(old(device.polls), device.polls).Events?
                               && Usable(LastPoll(old(device.polls), device.polls).events)
      ensures raised == Some(HidError) ==>
                device.now >= limit || (LastPoll(old(device.polls), device.polls).Events?
                                        && Gone(LastPoll(old(device.polls), device.polls).events))
      ensures raised == Some(Interrupt) ==> LastPoll(old(device.polls), device.polls).PollSignal?
      ensures if raised.None? then device.troubles == old(device.troubles)
              else device.troubles >= old(device.troubles) && (device.troubles > old(device.troubles) || device.now >= limit)
    {
      while true
        invariant old(device.polls) <= device.polls && device.troubles == old(device.troubles)
        invariant forall i | |old(device.polls)| <= i < |device.polls| :: TellsNothing(device.polls[i])
        invariant device.now >= old(device.now) && device.overrun >= old(device.overrun)
        invariant WithinLimit(limit, device.Charged(), old(device.Charged()), old(device.overrun))
        decreases limit - device.now
      {
        if Remaining(limit) <= 0 { return Some(HidError); }
        var reply := device.Poll((Remaining(limit) + 999) / 1000);
        match reply {
          case PollRetry =>
          case PollSignal => return Some(Interrupt);
          case Events(events) =>
            if Remaining(limit) <= 0 { return Some(HidError); }
            for k := 0 to |events|
              invariant forall j | 0 <= j < k :: !Tells(events[j])
            {
              if events[k].mine {
                if events[k].broken { return Some(HidError); }
                if events[k].ready { return None; }
              }
            }
        }
      }
    }

    /** Hand over one report, at most once, strictly before the limit. */
    method Write(report: Report, limit: int, ghost asked: int) returns (raised: Option<Raised>)
      requires asked <= device.now
      modifies device
      ensures device.now >= old(device.now) && device.overrun >= old(device.overrun)
      ensures WithinLimit(limit, device.Charged(), old(device.Charged()), old(device.overrun))
      ensures HandedOver(old(device.sent), device.sent, report, limit, asked, paused)
      ensures raised.None? ==> |device.sent| == |old(device.sent)| + 1
                               && device.sent[|old(device.sent)|].count == REPORT_BYTES && device.now < limit
                               && device.sent[|old(device.sent)|].at <= device.now
      ensures raised in {None, Some(HidError), Some(OsError), Some(Interrupt)}
      ensures if raised.None? then device.troubles == old(device.troubles)
              else device.troubles >= old(device.troubles) && (device.troubles > old(device.troubles) || device.now >= limit)
    {
      while true
        invariant device.troubles == old(device.troubles)
        invariant device.now >= old(device.now) && device.sent == old(device.sent) && device.overrun >= old(device.overrun)
        invariant WithinLimit(limit, device.Charged(), old(device.Charged()), old(device.overrun))
        decreases limit - device.now
      {
        var notReady := Ready(limit);
        if notReady.Some? { return notReady; }
        if Remaining(limit) <= 0 { return Some(HidError); }
        var reply, _ := device.Write(report, asked, paused);
        match reply {
          case WriteRetry =>
          case WouldBlock =>
            if Remaining(limit) <= 0 { return Some(HidError); }
            var signalled := device.Sleep(Min(RETRY_INTERVAL, Remaining(limit)));
            if signalled { return Some(Interrupt); }
          case WriteFailed => return Some(OsError);
          case WriteSignal => return Some(Interrupt);
          case Wrote(count) =>
            if count != REPORT_BYTES { return Some(HidError); }
            raised := Ready(limit);
            return;
        }
      }
    }

    /** Submit one report of the sequence. Any failure ends the sequence; it fails only when a call went
        wrong, a limit has passed, or the report is not made of bytes. */
    method WriteReport(report: Report) returns (raised: Option<Raised>)
      requires Valid()
      modifies this`deadline, this`started, this`failed, this`requested, this`completed, this`phase, device
      ensures Valid() && device.now >= old(device.now) && begun == old(begun)
      ensures old(failed) || !isOpen ==> && raised.Some? && device.sent == old(device.sent)
                                         && failed == old(failed) && requested == old(requested)
      ensures !old(failed) && isOpen ==> requested == old(requested) + [report] && (raised.Some? <==> failed)
      ensures raised != Some(SystemExit)
      ensures !old(failed) && isOpen ==>
                (raised == Some(BadValue) <==> !(0 <= report.modifier <= 255 && 0 <= report.key <= 255))
      ensures raised == Some(BadValue) ==> device.sent == old(device.sent)
      ensures raised.None? ==> |device.sent| == |old(device.sent)| + 1 && device.sent[|old(device.sent)|].at <= device.now
      ensures Adds(old(device.sent), device.sent, old(device.now))
    {
      if failed || !isOpen {
        return Some(HidError);
      }
      hide Stands, Excused, AllBytes, AllComplete, Adds;
      raised := TryWriteReport(report);
      failed := raised.Some?;
    }

    /** What may raise in it: then the sequence is to be marked as failed. */
    method TryWriteReport(report: Report) returns (raised: Option<Raised>)
      requires Valid() && !failed && isOpen
      modifies this`deadline, this`started, this`requested, this`completed, this`phase, device
      ensures requested == old(requested) + [report] && device.now >= old(device.now) && raised != Some(SystemExit)
      ensures raised.None? ==> && Valid() && |device.sent| == |old(device.sent)| + 1
                               && device.sent[|old(device.sent)|].at <= device.now
      ensures raised.Some? ==> FailedInOrder()
      ensures raised == Some(BadValue) <==> !IsBytes(report)
      ensures raised == Some(BadValue) ==> device.sent == old(device.sent)
      ensures Adds(old(device.sent), device.sent, old(device.now))
    {
      hide InOrder, Timely, PausesGrow, AllComplete, AllBytes, HandedOver, Adds, IsBytes;
      phase := Reporting(device.now);
      ghost var asked, before := device.now, device.sent;
      requested := requested + [report];
      var limit := Min(deadline, device.now + REPORT_TIMEOUT);
      if !started {
        limit := Min(limit, startDeadline);
      }
      NothingHandedOver(before, report, limit, asked, paused);
      if !IsBytes(report) {
        raised := Some(BadValue);
      } else {
        raised := Write(report, limit, asked);
      }
      TraceExtends(before, device.sent, old(requested), report, limit, asked, paused, requestedAt);
      if raised.Some? {
        return;
      }
      started, phase := true, Between;
      deadline := deadline + REPORT_ALLOWANCE;
      completed := completed + 1;
    }

    /** The sequence as it is left by a report that failed. */
    ghost predicate FailedInOrder()
      reads this, device
    {
      && Stands()
      && (Excused(device.now) || !AllBytes(requested))
    }

    /** A deliberate pause of finite, nonnegative length (None stands for any other float). Only a
        pause that elapsed moves the deadline. */
    method Pause(duration: Option<int>) returns (raised: Option<Raised>)
      requires Valid()
      modifies this`deadline, this`failed, this`paused, this`begun, this`phase, device`now, device`overrun, device`troubles
      ensures Valid() && device.now >= old(device.now) && old(paused) <= paused
      ensures duration.None? || duration.value < 0 || old(failed) || !isOpen ==>
                raised.Some? && failed == old(failed) && paused == old(paused)
      ensures duration.Some? && duration.value >= 0 && !old(failed) && isOpen ==>
                && (raised.Some? <==> failed)
                && paused - old(paused) in {0, duration.value}
                && (raised.None? ==> paused == old(paused) + duration.value && device.now >= old(device.now) + duration.value)
      ensures old(begun) <= begun <= old(begun) + if duration.Some? then Max(0, duration.value) else 0
      ensures raised != Some(SystemExit)
    {
      hide InOrder, Timely, PausesGrow, AllComplete;
      PausesMore(device.sent, paused, if duration.Some? then paused + Max(0, duration.value) else paused);
      if duration.None? || duration.value < 0 {
        return Some(BadValue);
      }
      if failed || !isOpen {
        return Some(HidError);
      }
      phase := Between;
      if Remaining(deadline) <= 0 {
        failed := true;
        return Some(HidError);
      }
      begun := begun + duration.value;
      var signalled := device.Sleep(duration.value);
      if signalled {
        failed := true;
        return Some(Interrupt);
      }
      deadline := deadline + duration.value;
      paused := paused + duration.value;
      if Remaining(deadline) <= 0 {
        failed := true;
        return Some(HidError);
      }
      raised := None;
    }

    /** Cleanup: at most one neutral report, before its own limit; nothing can follow it. */
    method Exit(raisedInside: Option<Raised>) returns (raised: Option<Raised>)
      requires Valid()
      modifies this`isOpen, this`hasLock, this`failed, this`endedAt, device
      ensures endedAt == old(device.now)
      ensures raised.None? ==> raisedInside.None? && device.troubles == old(device.troubles)
      ensures raised.Some? ==> raisedInside.Some? || device.troubles > old(device.troubles) || device.now >= endedAt + CLEANUP_TIMEOUT
      ensures device.troubles >= old(device.troubles)
      ensures failed && !isOpen && !hasLock && device.now >= old(device.now) && device.overrun >= old(device.overrun)
      ensures device.Charged() <= old(device.Charged()) + CLEANUP_TIMEOUT + POLL_ROUNDING
      ensures HandedOver(old(device.sent), device.sent, NEUTRAL, old(device.now) + CLEANUP_TIMEOUT, old(device.now), paused)
      ensures raised in {raisedInside, Some(Interrupt), if raisedInside.None? then Some(HidError) else raisedInside}
      ensures raisedInside.Some? ==> raised.Some?
      ensures raised.None? && old(isOpen) ==> |device.sent| == |old(device.sent)| + 1
                                              && device.sent[|old(device.sent)|].count == REPORT_BYTES
    {
      endedAt := device.now;
      var problem: Option<Raised> := None;
      if isOpen {
        problem := Write(NEUTRAL, device.now + CLEANUP_TIMEOUT, device.now);
      }
      failed := true;
      var errors := Close();
      if problem == Some(Interrupt) {
        return problem;
      }
      if problem.None? && errors == 0 {
        return raisedInside;
      }
      return if raisedInside.Some? then raisedInside else Some(HidError);
    }
  }

  predicate AllBytes(reports: seq<Report>) {
    forall i | 0 <= i < |reports| :: IsBytes(reports[i])
  }

  /** The last of the polls since `before`, if there was one. */
  function LastPoll(before: seq<PollReply>, after: seq<PollReply>): PollReply {
    if |before| < |after| then after[|after| - 1] else PollRetry
  }

  /** At most one submission was added, of a report asked for at `asked` or later. */
  predicate Adds(before: seq<Submission>, after: seq<Submission>, asked: int) {
    && before <= after && |after| <= |before| + 1
    && (|after| == |before| + 1 ==> asked <= after[|before|].asked)
  }

  lemma PausesMore(sent: seq<Submission>, paused: int, more: int)
    requires PausesGrow(sent, paused) && paused <= more
    ensures PausesGrow(sent, more)
  {
  }

  /** One more report, handed over in time or not at all, keeps the trace in order and in time. */
  lemma TraceExtends(before: seq<Submission>, after: seq<Submission>, requested: seq<Report>, report: Report,
                     limit: int, asked: int, paused: int, requestedAt: int)
    requires InOrder(before, requested) && AllComplete(before) && |before| == |requested|
    requires Timely(before, requestedAt) && PausesGrow(before, paused) && 0 <= paused
    requires HandedOver(before, after, report, limit, asked, paused)
    requires limit <= requestedAt + IO_BUDGET + paused + REPORT_ALLOWANCE * |before| && limit <= asked + REPORT_TIMEOUT
    requires before == [] ==> limit <= requestedAt + START_TIMEOUT
    ensures InOrder(after, requested + [report]) && Timely(after, requestedAt) && PausesGrow(after, paused)
    ensures |after| == |before| + 1 && after[|before|].count == REPORT_BYTES ==> AllComplete(after)
    ensures Adds(before, after, asked) && |before| <= |after|
    ensures !IsBytes(report) ==> !AllBytes(requested + [report])
  {
    forall i | 0 <= i < |before| ensures i < |after| && after[i] == before[i] {
      assert after[..|before|][i] == after[i];
    }
    assert (requested + [report])[|requested|] == report;
  }

  lemma NothingHandedOver(sent: seq<Submission>, report: Report, limit: int, asked: int, paused: int)
    ensures HandedOver(sent, sent, report, limit, asked, paused)
  {
  }

  /** Waiting up to a limit was charged no more than the time to it, rounded up. */
  predicate WithinLimit(limit: int, charged: int, before: int, overrunBefore: int) {
    charged <= Max(before, limit + POLL_ROUNDING - overrunBefore)
  }

  /** At most one more submission: of `report`, in time. */
  predicate HandedOver(before: seq<Submission>, after: seq<Submission>, report: Report, limit: int, asked: int, paused: int) {
    after == before ||
    (&& |after| == |before| + 1 && after[..|before|] == before
     && var s := after[|before|];
        s.report == report && 0 < s.count <= REPORT_BYTES && asked <= s.at < limit && s.asked == asked && s.paused == paused)
  }
}
