/** The host switcher: one authentication check and one switch request, both suspended at awaits,
    interleaved with clicks, timers, polling and loads of the console frame.

    A turn is what runs between two awaits. `auth` and `attempt` say where the two coroutines are
    suspended; every other field is one of the page's flags. */
module HostSwitch {
  import opened Wrappers

  datatype Host = Host(channel: string, name: string)

  datatype AuthStep = AuthIdle | AuthReply | AuthBody
  datatype Attempt =
    | Still
    | Baseline(button: nat)           // reading the reference picture
    | Reply(button: nat, sent: bool)  // the pulse, unless it was aborted before it was sent
    | Body(button: nat)
    | Video(button: nat)              // answered; watching the picture

  /** What the page knows of a pulse it sent. */
  datatype Answer = Unanswered | Done | Refused
  datatype Pulse = Pulse(button: nat, answer: Answer)

  datatype Event =
    | Click(button: nat)
    | BaselineRead
    | PulseReply(status: int)
    | PulseBody(ok: bool)
    | PulseError
    | SwitchTimeout
    | Watched
    | CheckReply(status: int)
    | CheckBody(ok: bool)
    | CheckError
    | PollTick
    | ConsoleSeen(ready: bool)
    | FrameLoad(accessible: bool, ready: bool)

  predicate IsRefusal(status: int) { status == 401 || status == 403 }
  predicate IsOk(status: int) { 200 <= status < 300 }

  // ---------------------------------------------------------------- the pulses of a run

  predicate Definite(p: Pulse) { !p.answer.Unanswered? }

  predicate AllDefinite(pulses: seq<Pulse>) {
    forall i | 0 <= i < |pulses| :: Definite(pulses[i])
  }

  /** A pulse goes out only when every earlier one was answered; answers are final. */
  predicate Follows(before: seq<Pulse>, after: seq<Pulse>) {
    && |before| <= |after|
    && (forall i | 0 <= i < |before| :: after[i].button == before[i].button && (Definite(before[i]) ==> after[i] == before[i]))
    && (forall i | 0 <= i < |after| - 1 :: Definite(after[i]))
  }

  lemma FollowsSelf(pulses: seq<Pulse>)
    ensures (forall i | 0 <= i < |pulses| - 1 :: Definite(pulses[i])) ==> Follows(pulses, pulses)
  {
  }

  lemma FollowsTrans(a: seq<Pulse>, b: seq<Pulse>, c: seq<Pulse>)
    requires Follows(a, b) && Follows(b, c)
    ensures Follows(a, c)
  {
    forall i | 0 <= i < |a| ensures c[i].button == a[i].button && (Definite(a[i]) ==> c[i] == a[i]) {
      assert b[i].button == a[i].button;
    }
  }

  /** The host of the latest pulse known to be done. */
  function LastDone(pulses: seq<Pulse>): Option<nat> {
    if pulses == [] then None
    else if pulses[|pulses| - 1].answer.Done? then Some(pulses[|pulses| - 1].button)
    else LastDone(pulses[..|pulses| - 1])
  }

  function Answered(pulses: seq<Pulse>, answer: Answer): (r: seq<Pulse>)
    requires pulses != []
    ensures |r| == |pulses|
  {
    pulses[|pulses| - 1 := pulses[|pulses| - 1].(answer := answer)]
  }

  // ---------------------------------------------------------------- a run, told by its events alone

  /** An event that was delivered, and whether it is a click that was taken up. */
  datatype Turn = Turn(event: Event, takes: bool)

  /** What a run amounts to: the clicks taken up, the pulses sent and what is known of them, whether
      the page has failed closed, and whether the latest request ran out of time. */
  datatype Ledger = Ledger(taken: seq<nat>, pulses: seq<Pulse>, failed: bool, late: bool)

  predicate EndsBadly(e: Event) {
    match e
    case PulseReply(status) => !IsRefusal(status) && !IsOk(status)
    case PulseBody(ok) => !ok
    case PulseError => true
    case _ => false
  }

  /** The answer an event gives to the pulse that is waiting for one. */
  function AnswerBy(e: Event): Answer {
    match e
    case PulseReply(status) => if IsRefusal(status) then Refused else Unanswered
    case PulseBody(ok) => if ok then Done else Unanswered
    case _ => Unanswered
  }

  /** One event, read off the ledger without any of the page's flags. */
  function Entered(l: Ledger, t: Turn): Ledger {
    match t.event
    case Click(b) => if t.takes then l.(taken := l.taken + [b], late := false) else l
    case SwitchTimeout => l.(late := true)
    case BaselineRead =>
      if l.late || l.taken == [] then l else l.(pulses := l.pulses + [Pulse(l.taken[|l.taken| - 1], Unanswered)])
    case _ =>
      if EndsBadly(t.event) then l.(failed := true)
      else if AnswerBy(t.event) != Unanswered && l.pulses != [] then l.(pulses := Answered(l.pulses, AnswerBy(t.event)))
      else l
  }

  /** The check, the polling, the console and the picture have no part in it. */
  lemma Elsewhere(l: Ledger, e: Event)
    ensures e.Watched? || e.CheckReply? || e.CheckBody? || e.CheckError? || e.PollTick? || e.ConsoleSeen? || e.FrameLoad? ==>
              forall takes :: Entered(l, Turn(e, takes)) == l
  {
  }

  function EnteredAll(l: Ledger, turns: seq<Turn>): Ledger {
    if turns == [] then l else Entered(EnteredAll(l, turns[..|turns| - 1]), turns[|turns| - 1])
  }

  /** Failed closed means exactly that some request ended badly. */
  lemma {:induction false} FailedByEvent(l: Ledger, turns: seq<Turn>)
    ensures EnteredAll(l, turns).failed <==> l.failed || exists i | 0 <= i < |turns| :: EndsBadly(turns[i].event)
  {
    if turns == [] {
    } else {
      var init, last := turns[..|turns| - 1], turns[|turns| - 1];
      FailedByEvent(l, init);
      assert forall i | 0 <= i < |init| :: init[i] == turns[i];
    }
  }

  /** A pulse sent in this run counts as done or refused only by an event that says so, delivered
      while that pulse was the latest. */
  lemma {:induction false} AnsweredByEvent(l: Ledger, turns: seq<Turn>, k: nat)
    requires |l.pulses| <= k < |EnteredAll(l, turns).pulses|
    ensures var answer := EnteredAll(l, turns).pulses[k].answer;
            answer == Unanswered || exists i | 0 <= i < |turns| :: Answers(l, turns, i, k, answer)
  {
    if turns == [] {
    } else {
      var init, last := turns[..|turns| - 1], turns[|turns| - 1];
      var before, after := EnteredAll(l, init), EnteredAll(l, turns);
      if k < |before.pulses| && after.pulses[k].answer != Unanswered {
        if before.pulses[k].answer == after.pulses[k].answer {
          AnsweredByEvent(l, init, k);
          var i :| 0 <= i < |init| && Answers(l, init, i, k, before.pulses[k].answer);
          assert turns[..i] == init[..i];
          assert Answers(l, turns, i, k, after.pulses[k].answer);
        } else {
          assert Answers(l, turns, |init|, k, after.pulses[k].answer);
        }
      }
    }
  }

  /** Event `i` gave pulse `k`, the latest one then, this answer. */
  predicate Answers(l: Ledger, turns: seq<Turn>, i: nat, k: nat, answer: Answer)
    requires i < |turns|
  {
    AnswerBy(turns[i].event) == answer && |EnteredAll(l, turns[..i]).pulses| == k + 1
  }

  // ---------------------------------------------------------------- the page without its redundancy

  /** What the browser can deliver next. A timer or a reply needs someone to have asked for it. */
  predicate CanCome(e: Event, hosts: seq<Host>, attempt: Attempt, auth: AuthStep, polling: bool) {
    match e
    case Click(b) => b < |hosts|
    case BaselineRead => attempt.Baseline?
    case PulseReply(_) => attempt.Reply? && attempt.sent
    case PulseBody(_) => attempt.Body?
    case PulseError => attempt.Reply? || attempt.Body?
    case SwitchTimeout => attempt.Baseline? || attempt.Reply? || attempt.Body?
    case Watched => attempt.Video?
    case CheckReply(_) => auth == AuthReply
    case CheckBody(_) => auth == AuthBody
    case CheckError => auth != AuthIdle
    case PollTick => polling
    case ConsoleSeen(_) => true
    case FrameLoad(_, _) => true
  }

  /** Everything the page's behaviour depends on. That a switch or a check is under way, and which
      buttons are enabled, follows from it. */
  datatype Page = Page(ledger: Ledger, attempt: Attempt, auth: AuthStep, signedIn: bool, ready: bool, polling: bool)
  {
    predicate MaySwitch() { signedIn && ready && attempt == Still && !ledger.failed }

    /** What every page that can be reached has. */
    predicate Sound() {
      && (ledger.failed ==> attempt == Still)
      && InStep(attempt, ledger.taken, ledger.pulses)
      && (attempt == Still && !ledger.failed ==> Resolved(ledger.taken, ledger.pulses))
      && forall i | 0 <= i < |ledger.pulses| - 1 :: Definite(ledger.pulses[i])
    }

    /** A check begins unless one runs, or its result could not count. */
    function StartCheck(): Page {
      if ledger.failed || attempt != Still || auth != AuthIdle then this else this.(auth := AuthReply)
    }

    function EndCheck(ok: bool): Page {
      if ledger.failed || attempt != Still then this.(auth := AuthIdle)
      else this.(auth := AuthIdle, signedIn := ok, polling := !ok)
    }

    predicate Takes(e: Event, hosts: seq<Host>) {
      e.Click? && e.button < |hosts| && MaySwitch() && hosts[e.button].channel != "" && hosts[e.button].name != ""
    }

    predicate Possible(e: Event, hosts: seq<Host>) { CanCome(e, hosts, attempt, auth, polling) }

    function Next(e: Event, hosts: seq<Host>): Page
      requires Possible(e, hosts)
    {
      var page := this.(ledger := Entered(ledger, Turn(e, Takes(e, hosts))));
      match e
      case Click(b) => if Takes(e, hosts) then page.(attempt := Baseline(b)) else page
      case BaselineRead => page.(attempt := Reply(attempt.button, !ledger.late))
      case PulseReply(status) =>
        if IsRefusal(status) then page.(attempt := Still, signedIn := false, polling := true)
        else if IsOk(status) then page.(attempt := Body(attempt.button))
        else page.(attempt := Still, polling := false)
      case PulseBody(ok) => if ok then page.(attempt := Video(attempt.button)) else page.(attempt := Still, polling := false)
      case PulseError => page.(attempt := Still, polling := false)
      case SwitchTimeout => page
      case Watched => page.(attempt := Still)
      case CheckReply(status) =>
        if IsOk(status) && !ledger.failed && attempt == Still then page.(auth := AuthBody) else page.EndCheck(false)
      case CheckBody(ok) => page.EndCheck(ok)
      case CheckError => page.EndCheck(false)
      case PollTick => page.StartCheck()
      case ConsoleSeen(seen) => page.(ready := seen)
      case FrameLoad(accessible, seen) => page.(ready := accessible && seen).StartCheck()
    }

    /** A whole run: every event that can be delivered when it comes is. */
    function Played(events: seq<Event>, hosts: seq<Host>): Page {
      if events == [] then this
      else
        var before, e := Played(events[..|events| - 1], hosts), events[|events| - 1];
        if before.Possible(e, hosts) then before.Next(e, hosts) else before
    }

    /** The events of a run that are delivered. */
    function Turns(events: seq<Event>, hosts: seq<Host>): seq<Turn> {
      if events == [] then []
      else
        var init, e := events[..|events| - 1], events[|events| - 1];
        var before := Played(init, hosts);
        Turns(init, hosts) + if before.Possible(e, hosts) then [Turn(e, before.Takes(e, hosts))] else []
    }
  }

  /** The ledger of a run is that of the events delivered, in order. */
  lemma {:induction false} PlayedLedger(page: Page, events: seq<Event>, hosts: seq<Host>)
    ensures page.Played(events, hosts).ledger == EnteredAll(page.ledger, page.Turns(events, hosts))
  {
    if events == [] {
    } else {
      var init, e := events[..|events| - 1], events[|events| - 1];
      var before, turns := page.Played(init, hosts), page.Turns(init, hosts);
      PlayedLedger(page, init, hosts);
      if before.Possible(e, hosts) {
        var turn := Turn(e, before.Takes(e, hosts));
        assert page.Turns(events, hosts) == turns + [turn];
        assert (turns + [turn])[..|turns|] == turns;
        NextLedger(before, e, hosts);
      } else {
        assert page.Turns(events, hosts) == turns;
      }
    }
  }

  lemma NextLedger(page: Page, e: Event, hosts: seq<Host>)
    requires page.Possible(e, hosts)
    ensures page.Next(e, hosts).ledger == Entered(page.ledger, Turn(e, page.Takes(e, hosts)))
  {
  }

  // ---------------------------------------------------------------- what an answer decides

  /** Event `i` of a run was delivered. */
  predicate Came(page: Page, events: seq<Event>, hosts: seq<Host>, i: nat)
    requires i < |events|
  {
    page.Played(events[..i], hosts).Possible(events[i], hosts)
  }

  /** How many pulses had gone out before event `i`. */
  function Sent(page: Page, events: seq<Event>, hosts: seq<Host>, i: nat): nat
    requires i <= |events|
  {
    |page.Played(events[..i], hosts).ledger.pulses|
  }

  /** A reply with a definite refusal, by its status. */
  predicate SaysNo(e: Event) { e == PulseReply(401) || e == PulseReply(403) }

  /** The end of a request that leaves open what became of the pulse. */
  predicate LeavesOpen(e: Event) {
    || (e.PulseReply? && e.status !in {401, 403} && (e.status < 200 || e.status > 299))
    || e == PulseBody(false) || e == PulseError
  }

  predicate RefusedAt(page: Page, events: seq<Event>, hosts: seq<Host>, k: nat, i: nat)
    requires i < |events|
  {
    SaysNo(events[i]) && Came(page, events, hosts, i) && Sent(page, events, hosts, i) == k + 1
  }

  predicate DoneAt(page: Page, events: seq<Event>, hosts: seq<Host>, k: nat, i: nat)
    requires i < |events|
  {
    events[i] == PulseBody(true) && Came(page, events, hosts, i) && Sent(page, events, hosts, i) == k + 1
  }

  predicate LeftOpenAt(page: Page, events: seq<Event>, hosts: seq<Host>, i: nat)
    requires i < |events|
  {
    LeavesOpen(events[i]) && Came(page, events, hosts, i)
  }

  ghost predicate HasRefusal(page: Page, events: seq<Event>, hosts: seq<Host>, k: nat) {
    exists i | 0 <= i < |events| :: RefusedAt(page, events, hosts, k, i)
  }

  ghost predicate HasSuccess(page: Page, events: seq<Event>, hosts: seq<Host>, k: nat) {
    exists i | 0 <= i < |events| :: DoneAt(page, events, hosts, k, i)
  }

  ghost predicate HasOpenEnd(page: Page, events: seq<Event>, hosts: seq<Host>) {
    exists i | 0 <= i < |events| :: LeftOpenAt(page, events, hosts, i)
  }

  lemma CausesStay(page: Page, events: seq<Event>, e: Event, hosts: seq<Host>, k: nat)
    ensures HasRefusal(page, events, hosts, k) ==> HasRefusal(page, events + [e], hosts, k)
    ensures HasSuccess(page, events, hosts, k) ==> HasSuccess(page, events + [e], hosts, k)
    ensures HasOpenEnd(page, events, hosts) ==> HasOpenEnd(page, events + [e], hosts)
  {
    hide Page.Played, Page.Possible;
    var more := events + [e];
    forall i | 0 <= i < |events|
      ensures RefusedAt(page, events, hosts, k, i) ==> RefusedAt(page, more, hosts, k, i)
      ensures DoneAt(page, events, hosts, k, i) ==> DoneAt(page, more, hosts, k, i)
      ensures LeftOpenAt(page, events, hosts, i) ==> LeftOpenAt(page, more, hosts, i)
    {
      assert more[..i] == events[..i];
    }
  }

  lemma NextHasCause(before: Page, e: Event, hosts: seq<Host>, k: nat)
    requires before.Possible(e, hosts)
    ensures var was, now := before.ledger.pulses, before.Next(e, hosts).ledger.pulses;
            && |was| <= |now|
            && (k < |now| && now[k].answer == Refused ==> (k < |was| && was[k].answer == Refused) || (SaysNo(e) && |was| == k + 1))
            && (k < |now| && now[k].answer == Done ==> (k < |was| && was[k].answer == Done) || (e == PulseBody(true) && |was| == k + 1))
    ensures before.Next(e, hosts).ledger.failed ==> before.ledger.failed || LeavesOpen(e)
  {
    var turn := Turn(e, before.Takes(e, hosts));
    NextLedger(before, e, hosts);
    EnteredHasCause(before.ledger, turn, k);
    hide *;
  }

  lemma EnteredHasCause(l: Ledger, t: Turn, k: nat)
    ensures var was, now := l.pulses, Entered(l, t).pulses;
            && |was| <= |now|
            && (k < |now| && now[k].answer == Refused ==> (k < |was| && was[k].answer == Refused) || (SaysNo(t.event) && |was| == k + 1))
            && (k < |now| && now[k].answer == Done ==> (k < |was| && was[k].answer == Done) || (t.event == PulseBody(true) && |was| == k + 1))
    ensures Entered(l, t).failed ==> l.failed || LeavesOpen(t.event)
  {
  }

  /** Over every run: a pulse sent in it is refused only by a 401 or 403, and done only by a body
      that says so, delivered while it was the latest; and the page fails closed only by an end
      that leaves a request open. */
  lemma {:induction false} AnswersHaveCauses(page: Page, events: seq<Event>, hosts: seq<Host>, k: nat)
    requires |page.ledger.pulses| <= k
    ensures var pulses := page.Played(events, hosts).ledger.pulses;
            && (k < |pulses| && pulses[k].answer == Refused ==> HasRefusal(page, events, hosts, k))
            && (k < |pulses| && pulses[k].answer == Done ==> HasSuccess(page, events, hosts, k))
    ensures page.Played(events, hosts).ledger.failed && !page.ledger.failed ==> HasOpenEnd(page, events, hosts)
  {
    if events != [] {
      var n := |events| - 1;
      var init, e := events[..n], events[n];
      AnswersHaveCauses(page, init, hosts, k);
      CausesStay(page, init, e, hosts, k);
      assert init + [e] == events;
      var before := page.Played(init, hosts);
      hide Page.Next;
      if before.Possible(e, hosts) {
        NextHasCause(before, e, hosts, k);
        assert Came(page, events, hosts, n);
      }
      if RefusedAt(page, events, hosts, k, n) || DoneAt(page, events, hosts, k, n) || LeftOpenAt(page, events, hosts, n) {
      }
    }
  }

  /** Every answer of a run has its cause, and so has failing closed. */
  ghost predicate HaveCauses(page: Page, events: seq<Event>, hosts: seq<Host>, end: Page) {
    && (forall k: nat | |page.ledger.pulses| <= k < |end.ledger.pulses| ::
          && (end.ledger.pulses[k].answer == Refused ==> HasRefusal(page, events, hosts, k))
          && (end.ledger.pulses[k].answer == Done ==> HasSuccess(page, events, hosts, k)))
    && (end.ledger.failed && !page.ledger.failed ==> HasOpenEnd(page, events, hosts))
  }

  lemma RunMeans(page: Page, events: seq<Event>, hosts: seq<Host>)
    ensures HaveCauses(page, events, hosts, page.Played(events, hosts))
    ensures page.Played(events, hosts).ledger == EnteredAll(page.ledger, page.Turns(events, hosts))
    ensures var turns := page.Turns(events, hosts);
            page.Played(events, hosts).ledger.failed <==> page.ledger.failed || exists i | 0 <= i < |turns| :: EndsBadly(turns[i].event)
  {
    hide Page.Played, Page.Turns, EndsBadly, HasRefusal, HasSuccess, HasOpenEnd;
    PlayedLedger(page, events, hosts);
    FailedByEvent(page.ledger, page.Turns(events, hosts));
    AnswersHaveCauses(page, events, hosts, |page.ledger.pulses|);
    forall k: nat | |page.ledger.pulses| <= k
      ensures var pulses := page.Played(events, hosts).ledger.pulses;
              && (k < |pulses| && pulses[k].answer == Refused ==> HasRefusal(page, events, hosts, k))
              && (k < |pulses| && pulses[k].answer == Done ==> HasSuccess(page, events, hosts, k))
    {
      AnswersHaveCauses(page, events, hosts, k);
    }
  }

  // ---------------------------------------------------------------- and decides for good

  lemma {:induction false} PlayedOn(page: Page, events: seq<Event>, more: seq<Event>, hosts: seq<Host>)
    ensures page.Played(events + more, hosts) == page.Played(events, hosts).Played(more, hosts)
  {
    if more == [] {
      assert events + more == events;
    } else {
      PlayedOn(page, events, more[..|more| - 1], hosts);
      assert (events + more)[..|events + more| - 1] == events + more[..|more| - 1];
    }
  }

  lemma NextSound(page: Page, e: Event, hosts: seq<Host>)
    requires page.Sound() && page.Possible(e, hosts)
    ensures page.Next(e, hosts).Sound()
  {
  }

  lemma NextFollows(page: Page, e: Event, hosts: seq<Host>)
    requires page.Sound() && page.Possible(e, hosts)
    ensures Follows(page.ledger.pulses, page.Next(e, hosts).ledger.pulses)
    ensures page.ledger.failed ==> page.Next(e, hosts).ledger == page.ledger
  {
    NextLedger(page, e, hosts);
    hide Page.Next;
  }

  /** Whatever comes next, answers are final, and a page that has failed closed sends nothing more. */
  lemma {:induction false} PlayedSound(page: Page, events: seq<Event>, hosts: seq<Host>)
    requires page.Sound()
    ensures page.Played(events, hosts).Sound() && Follows(page.ledger.pulses, page.Played(events, hosts).ledger.pulses)
    ensures page.ledger.failed ==> page.Played(events, hosts).ledger == page.ledger
  {
    hide Page.Next, Page.Sound, Follows;
    if events == [] {
      SoundFollows(page);
    } else {
      var init, e := events[..|events| - 1], events[|events| - 1];
      PlayedSound(page, init, hosts);
      var before := page.Played(init, hosts);
      if before.Possible(e, hosts) {
        NextSound(before, e, hosts);
        NextFollows(before, e, hosts);
        FollowsTrans(page.ledger.pulses, before.ledger.pulses, before.Next(e, hosts).ledger.pulses);
      }
    }
  }

  lemma SoundFollows(page: Page)
    requires page.Sound()
    ensures Follows(page.ledger.pulses, page.ledger.pulses)
  {
  }

  lemma NextDecides(page: Page, e: Event, hosts: seq<Host>)
    requires page.Sound() && page.Possible(e, hosts)
    ensures var n, next := |page.ledger.pulses|, page.Next(e, hosts);
            && (SaysNo(e) ==> n > 0 && n == |next.ledger.pulses| && next.ledger.pulses[n - 1].answer == Refused
                              && !next.signedIn && next.polling && next.attempt == Still && !next.ledger.failed)
            && (e == PulseBody(true) ==> n > 0 && n == |next.ledger.pulses| && next.ledger.pulses[n - 1].answer == Done)
            && (e.PulseReply? && 200 <= e.status <= 299 ==> next.ledger == page.ledger && next.attempt.Body?)
            && (LeavesOpen(e) ==> next.ledger == page.ledger.(failed := true) && !next.polling)
            && (LeavesOpen(e) && !(page.attempt.Reply? && !page.attempt.sent) ==> n > 0 && page.ledger.pulses[n - 1].answer == Unanswered)
  {
  }

  /** What a delivered reply, body or error decides of the latest pulse, it decides for good: 401 and
      403 refuse it; a body that says ok means that it was done; and any other status outside 200 to
      299, 504 included, any other body, and an error leave the page failed closed with nothing
      sent after it and that pulse, if it was sent, unanswered. */
  lemma DecidedForGood(page: Page, before: seq<Event>, e: Event, after: seq<Event>, hosts: seq<Host>)
    requires page.Sound() && page.Played(before, hosts).Possible(e, hosts)
    ensures var was, end := page.Played(before, hosts), page.Played(before + [e] + after, hosts);
            var n := |was.ledger.pulses|;
            && (SaysNo(e) ==> 0 < n <= |end.ledger.pulses| && end.ledger.pulses[n - 1].answer == Refused)
            && (e == PulseBody(true) ==> 0 < n <= |end.ledger.pulses| && end.ledger.pulses[n - 1].answer == Done)
            && (LeavesOpen(e) ==> end.ledger.failed && end.ledger.pulses == was.ledger.pulses)
            && (LeavesOpen(e) && !(was.attempt.Reply? && !was.attempt.sent) ==> n > 0 && end.ledger.pulses[n - 1].answer == Unanswered)
  {
    hide Page.Next, Page.Sound, Page.Possible;
    var was := page.Played(before, hosts);
    PlayedSound(page, before, hosts);
    NextDecides(was, e, hosts);
    NextSound(was, e, hosts);
    assert (before + [e])[..|before|] == before;
    var next := was.Next(e, hosts);
    assert page.Played(before + [e], hosts) == next;
    PlayedOn(page, before + [e], after, hosts);
    PlayedSound(next, after, hosts);
  }

  // ---------------------------------------------------------------- signing in

  /** A check that says that nobody is signed in. */
  predicate SaysSignedOut(e: Event) {
    (e.CheckReply? && (e.status < 200 || e.status > 299)) || e == CheckBody(false) || e == CheckError
  }

  /** The event signs the page out: a refused switch, or a check whose result counts. */
  predicate SignsOut(page: Page, e: Event) {
    SaysNo(e) || (SaysSignedOut(e) && !page.ledger.failed && page.attempt == Still)
  }

  ghost predicate HasSignIn(page: Page, events: seq<Event>, hosts: seq<Host>) {
    exists i, j | 0 <= i < j < |events| :: SignsInAt(page, events, hosts, i, j)
  }

  /** Event `i` was a check's reply with a success status and event `j` its body, saying that
      someone is signed in; nothing delivered after it signs the page out. */
  predicate SignsInAt(page: Page, events: seq<Event>, hosts: seq<Host>, i: nat, j: nat)
    requires i < j < |events|
  {
    && ReplyAt(page, events, hosts, i) && events[j] == CheckBody(true) && Came(page, events, hosts, j)
    && forall m | j < m < |events| && Came(page, events, hosts, m) :: !SignsOut(page.Played(events[..m], hosts), events[m])
  }

  predicate ReplyAt(page: Page, events: seq<Event>, hosts: seq<Host>, i: nat)
    requires i < |events|
  {
    events[i].CheckReply? && 200 <= events[i].status <= 299 && Came(page, events, hosts, i)
  }

  lemma NextSignsIn(page: Page, e: Event, hosts: seq<Host>)
    requires page.Possible(e, hosts)
    ensures page.Next(e, hosts).signedIn ==> (page.signedIn && !SignsOut(page, e)) || (e == CheckBody(true) && page.auth == AuthBody)
    ensures page.Next(e, hosts).auth == AuthBody ==> page.auth == AuthBody || (e.CheckReply? && 200 <= e.status <= 299)
    ensures SignsOut(page, e) ==> !page.Next(e, hosts).signedIn && page.Next(e, hosts).polling
  {
  }

  lemma EarlierCame(page: Page, events: seq<Event>, e: Event, hosts: seq<Host>, i: nat)
    requires i < |events|
    ensures Came(page, events + [e], hosts, i) == Came(page, events, hosts, i)
  {
    assert (events + [e])[..i] == events[..i];
  }

  /** A page signs in only by a check answered with a success status and then with a body that says
      so, and it stays signed in only until a switch is refused or a check that counts says otherwise. */
  lemma {:induction false} SignInHasCause(page: Page, events: seq<Event>, hosts: seq<Host>)
    requires !page.signedIn && page.auth != AuthBody
    ensures page.Played(events, hosts).signedIn ==> HasSignIn(page, events, hosts)
    ensures page.Played(events, hosts).auth == AuthBody ==> exists i | 0 <= i < |events| :: ReplyAt(page, events, hosts, i)
  {
    if events != [] {
      var n := |events| - 1;
      var init, e := events[..n], events[n];
      SignInHasCause(page, init, hosts);
      assert init + [e] == events;
      var before := page.Played(init, hosts);
      hide Page.Next, Page.Possible, SaysNo, SignsOut;
      forall i | 0 <= i < n ensures Came(page, events, hosts, i) == Came(page, init, hosts, i) {
        EarlierCame(page, init, e, hosts, i);
      }
      if before.Possible(e, hosts) {
        NextSignsIn(before, e, hosts);
      }
      if before.auth == AuthBody {
        var i :| 0 <= i < n && ReplyAt(page, init, hosts, i);
        assert ReplyAt(page, events, hosts, i);
      }
      if page.Played(events, hosts).signedIn {
        if before.signedIn && !(Came(page, events, hosts, n) && SignsOut(before, e)) {
          var i, j :| 0 <= i < j < n && SignsInAt(page, init, hosts, i, j);
          forall m | j < m < n ensures events[..m] == init[..m] {
          }
          assert SignsInAt(page, events, hosts, i, j);
        } else {
          var i :| 0 <= i < n && ReplyAt(page, events, hosts, i);
          assert SignsInAt(page, events, hosts, i, n);
        }
      }
      if page.Played(events, hosts).auth == AuthBody && before.auth != AuthBody {
        assert ReplyAt(page, events, hosts, n);
      }
    }
  }

  /** Clicks that were taken up against pulses: one each, in order; only the latest may be without. */
  predicate OneEach(taken: seq<nat>, pulses: seq<Pulse>) {
    && |pulses| <= |taken| <= |pulses| + 1
    && forall i | 0 <= i < |pulses| :: pulses[i].button == taken[i]
  }

  /** The latest click that was taken up has a definite answer. */
  predicate Resolved(taken: seq<nat>, pulses: seq<Pulse>) {
    |pulses| == |taken| && AllDefinite(pulses)
  }

  /** Where a switch stands, and what has been sent by then. */
  predicate InStep(attempt: Attempt, taken: seq<nat>, pulses: seq<Pulse>) {
    match attempt
    case Still => true
    case Baseline(b) => |taken| == |pulses| + 1 && taken[|pulses|] == b && AllDefinite(pulses)
    case Reply(b, sent) =>
      if sent then |taken| == |pulses| > 0 && pulses[|pulses| - 1] == Pulse(b, Unanswered)
      else |taken| == |pulses| + 1 && taken[|pulses|] == b && AllDefinite(pulses)
    case Body(b) => |taken| == |pulses| > 0 && pulses[|pulses| - 1] == Pulse(b, Unanswered)
    case Video(b) => |taken| == |pulses| > 0 && pulses[|pulses| - 1] == Pulse(b, Done)
  }

  class Switcher {
    const hosts: seq<Host>
    const disabled: array<bool>
    var isAuthenticated: bool
    var consoleReady: bool
    var isSwitching: bool
    var isFailedClosed: bool
    var authCheckInFlight: bool
    var polling: bool               // `authPollTimer !== null`
    var lastRequested: Option<nat>
    var timedOut: bool              // of the current request
    var auth: AuthStep
    var attempt: Attempt
    ghost var taken: seq<nat>       // buttons of the clicks that started a request
    ghost var pulses: seq<Pulse>

    /** Safety of the switch itself. */
    ghost predicate Safe()
      reads this
    {
      && (isSwitching <==> attempt != Still)
      && (isSwitching ==> isAuthenticated && !isFailedClosed)
      && OneEach(taken, pulses) && InStep(attempt, taken, pulses)
      && (forall i | 0 <= i < |pulses| - 1 :: Definite(pulses[i]))
      && (attempt == Still ==> (isFailedClosed <==> !Resolved(taken, pulses)))
      && lastRequested == LastDone(pulses)
    }

    ghost function Account(): Ledger
      reads this
    {
      Ledger(taken, pulses, isFailedClosed, timedOut)
    }

    ghost function View(): Page
      reads this
    {
      Page(Account(), attempt, auth, isAuthenticated, consoleReady, polling)
    }

    predicate MaySwitch()
      reads this
    {
      isAuthenticated && consoleReady && !isSwitching && !isFailedClosed
    }

    /** Without a sign-in there is always a check under way or a poll that will start one. */
    ghost predicate Valid()
      reads this, disabled
    {
      && Safe()
      && disabled.Length == |hosts|
      && (forall i | 0 <= i < |hosts| :: disabled[i] <==> !MaySwitch())
      && (authCheckInFlight <==> auth != AuthIdle)
      && (polling ==> !isAuthenticated && !isFailedClosed)
      && (!isAuthenticated && !isFailedClosed ==> polling || authCheckInFlight)
    }

    /** The page as loaded: every button disabled, and the first check started. */
    constructor (hosts: seq<Host>, accessible: bool, ready: bool)
      ensures Valid() && fresh(disabled) && this.hosts == hosts
      ensures pulses == [] && taken == [] && !isAuthenticated && !isSwitching && !isFailedClosed && !polling
      ensures auth == AuthReply && consoleReady == (accessible && ready)
    {
      this.hosts := hosts;
      disabled := new bool[|hosts|](_ => true);
      isAuthenticated, consoleReady, isSwitching, isFailedClosed := false, false, false, false;
      authCheckInFlight, polling, lastRequested, timedOut := false, false, None, false;
      auth, attempt := AuthIdle, Still;
      taken, pulses := [], [];
      new;
      BindConsoleDocument(accessible, ready);
      CheckAuth();
    }

    method SetButtonsDisabled(off: bool)
      requires disabled.Length == |hosts|
      modifies disabled
      ensures forall i | 0 <= i < |hosts| :: disabled[i] <==> off || isFailedClosed || !consoleReady
    {
      for k := 0 to disabled.Length
        invariant forall i | 0 <= i < k :: disabled[i] <==> off || isFailedClosed || !consoleReady
      {
        disabled[k] := off || isFailedClosed || !consoleReady;
      }
    }

    method SetConsoleReady(ready: bool)
      requires Safe() && disabled.Length == |hosts|
      modifies this`consoleReady, disabled
      ensures Safe() && consoleReady == ready && forall i | 0 <= i < |hosts| :: disabled[i] <==> !MaySwitch()
    {
      consoleReady := ready;
      SetButtonsDisabled(!isAuthenticated || isSwitching);
    }

    method BindConsoleDocument(accessible: bool, ready: bool)
      requires Safe() && disabled.Length == |hosts|
      modifies this`consoleReady, disabled
      ensures Safe() && consoleReady == (accessible && ready)
      ensures forall i | 0 <= i < |hosts| :: disabled[i] <==> !MaySwitch()
    {
      SetConsoleReady(false);
      if !accessible { return; }
      DiscoverVideo(ready);
    }

    /** Called when the console's document changes. */
    method DiscoverVideo(ready: bool)
      requires Safe() && disabled.Length == |hosts| && forall i | 0 <= i < |hosts| :: disabled[i] <==> !MaySwitch()
      modifies this`consoleReady, disabled
      ensures Safe() && consoleReady == ready && forall i | 0 <= i < |hosts| :: disabled[i] <==> !MaySwitch()
    {
      if ready != consoleReady {
        SetConsoleReady(ready);
      }
    }

    method StartAuthPoll()
      modifies this`polling
      ensures polling == (old(polling) || (!isAuthenticated && !isFailedClosed))
    {
      if isAuthenticated || isFailedClosed || polling { return; }
      polling := true;
    }

    /** The poll timer. While the page is valid it never has to stop itself. */
    method Tick()
      modifies this`authCheckInFlight, this`auth, this`polling
      ensures polling == (old(polling) && !isAuthenticated && !isFailedClosed)
      ensures var begins := !isAuthenticated && !isFailedClosed && !isSwitching && !old(authCheckInFlight);
              && authCheckInFlight == (old(authCheckInFlight) || begins)
              && auth == if begins then AuthReply else old(auth)
    {
      if isAuthenticated || isFailedClosed {
        polling := false;
        return;
      }
      CheckAuth();
    }

    // -------------------------------------------------------------- the authentication check

    method CheckAuth()
      modifies this`authCheckInFlight, this`auth
      ensures var begins := !isFailedClosed && !isSwitching && !old(authCheckInFlight);
              && authCheckInFlight == (old(authCheckInFlight) || begins)
              && auth == if begins then AuthReply else old(auth)
    {
      if isFailedClosed || isSwitching || authCheckInFlight { return; }
      authCheckInFlight := true;
      auth := AuthReply;
    }

    /** The check ends; unless a switch has taken over meanwhile, its result counts. */
    method EndCheck(signedIn: bool)
      requires Valid() && auth != AuthIdle
      modifies this`isAuthenticated, this`polling, this`authCheckInFlight, this`auth, disabled
      ensures Valid() && auth == AuthIdle && View() == old(View()).EndCheck(signedIn)
      ensures isAuthenticated == if isFailedClosed || isSwitching then old(isAuthenticated) else signedIn
      ensures !isFailedClosed && !isSwitching && !signedIn ==> polling
    {
      authCheckInFlight, auth := false, AuthIdle;
      if isFailedClosed || isSwitching { return; }
      isAuthenticated := signedIn;
      if signedIn {
        polling := false;
        SetButtonsDisabled(false);
      } else {
        SetButtonsDisabled(true);
        StartAuthPoll();
      }
    }

    method OnCheckReply(status: int)
      requires Valid() && auth == AuthReply
      modifies this`isAuthenticated, this`polling, this`authCheckInFlight, this`auth, disabled
      ensures Valid() && View() == old(View()).Next(CheckReply(status), hosts)
      ensures isFailedClosed || isSwitching ==> auth == AuthIdle && isAuthenticated == old(isAuthenticated)
      ensures !isFailedClosed && !isSwitching && IsOk(status) ==> auth == AuthBody && isAuthenticated == old(isAuthenticated)
      ensures !isFailedClosed && !isSwitching && !IsOk(status) ==> auth == AuthIdle && !isAuthenticated && polling
    {
      if isFailedClosed || isSwitching || IsRefusal(status) || !IsOk(status) {
        EndCheck(false);
        return;
      }
      auth := AuthBody;
    }

    // -------------------------------------------------------------- the switch request

    method FailClosed()
      requires disabled.Length == |hosts|
      modifies this`isFailedClosed, this`isSwitching, this`polling, this`attempt, disabled
      ensures isFailedClosed && !isSwitching && !polling && attempt == Still
      ensures forall i | 0 <= i < |hosts| :: disabled[i]
    {
      isFailedClosed, isSwitching, polling, attempt := true, false, false, Still;
      for k := 0 to disabled.Length
        modifies disabled
        invariant forall i | 0 <= i < k :: disabled[i]
      {
        disabled[k] := true;
      }
    }

    /** A click is taken up exactly when its button is enabled and names a host. */
    method RequestSwitch(button: nat)
      requires Valid() && button < |hosts|
      modifies this`isSwitching, this`timedOut, this`attempt, this`taken, disabled
      ensures Valid()
      ensures var starts := !old(disabled[button]) && hosts[button].channel != "" && hosts[button].name != "";
              && taken == (if starts then old(taken) + [button] else old(taken))
              && attempt == (if starts then Baseline(button) else old(attempt))
      ensures View() == old(View()).Next(Click(button), hosts)
    {
      if isFailedClosed || isSwitching || !isAuthenticated || !consoleReady { return; }
      if hosts[button].channel == "" || hosts[button].name == "" { return; }
      isSwitching, timedOut := true, false;
      attempt, taken := Baseline(button), taken + [button];
      SetButtonsDisabled(true);
    }

    /** The reference picture is in, or could not be read: send the pulse, unless time is up. */
    method OnBaselineRead()
      requires Valid() && attempt.Baseline?
      modifies this`attempt, this`pulses
      ensures Valid() && attempt == Reply(old(attempt).button, !timedOut)
      ensures pulses == if timedOut then old(pulses) else old(pulses) + [Pulse(old(attempt).button, Unanswered)]
      ensures AllDefinite(old(pulses)) && Follows(old(pulses), pulses)
      ensures View() == old(View()).Next(BaselineRead, hosts)
    {
      attempt := Reply(attempt.button, !timedOut);
      if !timedOut {
        pulses := pulses + [Pulse(attempt.button, Unanswered)];
        assert pulses[..|pulses| - 1] == old(pulses);
      }
    }

    /** The abort rejects whatever the request is waiting for, or is about to send. */
    method OnSwitchTimeout()
      requires Valid()
      modifies this`timedOut
      ensures Valid() && timedOut
      ensures Account() == Entered(old(Account()), Turn(SwitchTimeout, false))
    {
      timedOut := true;
    }

    method OnPulseReply(status: int)
      requires Valid() && attempt.Reply? && attempt.sent
      modifies this`isSwitching, this`isAuthenticated, this`isFailedClosed, this`polling, this`attempt, this`pulses, disabled
      ensures Valid()
      ensures IsRefusal(status) ==> && pulses == Answered(old(pulses), Refused) && attempt == Still
                                    && !isAuthenticated && polling && !isFailedClosed
      ensures !IsRefusal(status) && IsOk(status) ==> pulses == old(pulses) && attempt == Body(old(attempt).button) && !isFailedClosed
      ensures !IsRefusal(status) && !IsOk(status) ==> pulses == old(pulses) && isFailedClosed
      ensures taken == old(taken) && Follows(old(pulses), pulses)
      ensures View() == old(View()).Next(PulseReply(status), hosts)
    {
      if IsRefusal(status) {
        isSwitching, isAuthenticated, attempt := false, false, Still;
        pulses := Answered(pulses, Refused);
        assert pulses[..|pulses| - 1] == old(pulses)[..|pulses| - 1];
        SetButtonsDisabled(true);
        StartAuthPoll();
        return;
      }
      if status == 504 || !IsOk(status) {
        FailClosed();
        return;
      }
      attempt := Body(attempt.button);
    }

    method OnPulseBody(ok: bool)
      requires Valid() && attempt.Body?
      modifies this`isSwitching, this`isFailedClosed, this`polling, this`attempt, this`lastRequested, this`pulses, disabled
      ensures Valid() && taken == old(taken) && Follows(old(pulses), pulses)
      ensures View() == old(View()).Next(PulseBody(ok), hosts)
      ensures ok ==> && pulses == Answered(old(pulses), Done) && attempt == Video(old(attempt).button)
                     && !isFailedClosed && lastRequested == Some(old(attempt).button)
      ensures !ok ==> pulses == old(pulses) && isFailedClosed
    {
      if !ok {
        FailClosed();
        return;
      }
      lastRequested := Some(attempt.button);
      pulses := Answered(pulses, Done);
      attempt := Video(attempt.button);
    }

    /** A rejected fetch, an unreadable body, or the abort after ten seconds. */
    method OnPulseError()
      requires Valid() && (attempt.Reply? || attempt.Body?)
      modifies this`isSwitching, this`isFailedClosed, this`polling, this`attempt, disabled
      ensures Valid() && isFailedClosed && pulses == old(pulses) && taken == old(taken)
      ensures View() == old(View()).Next(PulseError, hosts)
    {
      FailClosed();
    }

    /** The picture settled, or did not: the switch is over and nothing is sent again. */
    method OnWatched()
      requires Valid() && attempt.Video?
      modifies this`isSwitching, this`attempt, disabled
      ensures Valid() && !isFailedClosed && Resolved(taken, pulses)
      ensures View() == old(View()).Next(Watched, hosts)
    {
      isSwitching, attempt := false, Still;
      SetButtonsDisabled(false);
    }

    // -------------------------------------------------------------- every interleaving

    predicate Possible(e: Event)
      reads this
    {
      CanCome(e, hosts, attempt, auth, polling)
    }

    /** One turn does to the page what its event alone says. */
    method Handle(e: Event)
      requires Valid() && Possible(e)
      modifies this, disabled
      ensures Valid() && Follows(old(pulses), pulses)
      ensures View() == old(View()).Next(e, hosts)
      ensures old(isFailedClosed) ==> isFailedClosed && pulses == old(pulses) && taken == old(taken)
      ensures |pulses| > |old(pulses)| ==> e.BaselineRead? && AllDefinite(old(pulses))
      ensures |taken| > |old(taken)| ==> e.Click? && !old(disabled[e.button])
    {
      Elsewhere(Account(), e);
      FollowsSelf(pulses);
      hide Entered, Follows, Definite, AllDefinite, InStep, OneEach, LastDone, Answered, EndsBadly, AnswerBy, Resolved;
      match e {
        case Click(b) => RequestSwitch(b);
        case BaselineRead => OnBaselineRead();
        case PulseReply(status) => OnPulseReply(status);
        case PulseBody(ok) => OnPulseBody(ok);
        case PulseError => OnPulseError();
        case SwitchTimeout => OnSwitchTimeout();
        case Watched => OnWatched();
        case CheckReply(status) => OnCheckReply(status);
        case CheckBody(ok) => EndCheck(ok);
        case CheckError => EndCheck(false);
        case PollTick => Tick();
        case ConsoleSeen(ready) => DiscoverVideo(ready);
        case FrameLoad(accessible, ready) =>
          BindConsoleDocument(accessible, ready);
          if !isFailedClosed && !isSwitching { CheckAuth(); }
      }
    }

    /** Any run whatsoever; exactly the events that cannot be delivered when they come are skipped. */
    method Drive(events: seq<Event>)
      requires Valid()
      modifies this, disabled
      ensures Valid() && Follows(old(pulses), pulses)
      ensures View() == old(View()).Played(events, hosts)
      ensures Account() == EnteredAll(old(Account()), old(View()).Turns(events, hosts))
      ensures old(isFailedClosed) ==> isFailedClosed && pulses == old(pulses) && taken == old(taken)
      ensures var turns := old(View()).Turns(events, hosts);
              isFailedClosed <==> old(isFailedClosed) || exists i | 0 <= i < |turns| :: EndsBadly(turns[i].event)
      ensures HaveCauses(old(View()), events, hosts, View())
      ensures old(View()).Sound() && View().Sound()
    {
      for k := 0 to |events|
        invariant Valid() && Follows(old(pulses), pulses)
        invariant View() == old(View()).Played(events[..k], hosts)
        invariant old(isFailedClosed) ==> isFailedClosed && pulses == old(pulses) && taken == old(taken)
      {
        assert events[..k + 1][..k] == events[..k];
        if Possible(events[k]) {
          ghost var before := pulses;
          Handle(events[k]);
          FollowsTrans(old(pulses), before, pulses);
        }
      }
      assert events[..|events|] == events;
      hide *;
      RunMeans(old(View()), events, hosts);
      assert old(View()).ledger == old(Account()) && View().ledger == Account();
    }
  }
}
