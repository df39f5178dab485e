/** How the collector talks to its console: one login at a time, refused logins and refused
    reads spaced by a doubling backoff, rate limits honoured, and one retry of a read whose
    session had ended. */
module ConsoleSession {
  import opened Arithmetic
  import opened Wrappers
  import opened WindowReading
  import opened Delivery

  const MAX_LOGIN_BACKOFF_S := 3600

  /** Wall-clock time in milliseconds. It may stand still or jump ahead, but not go back. */
  class Clock {
    var now: int

    constructor (start: int)
      ensures now == start
    {
      now := start;
    }

    method Read() returns (t: int)
      modifies this
      ensures t == now >= old(now)
    {
      t :| now <= t;
      now := t;
    }
  }

  /** Why a cycle ends early: a CycleError with the result it names, a changed row shape, or the
      process dying. */
  datatype Fault = Failed(result: CycleResult) | BadShape | Crashed

  /** The results an error can name. None of them says that a poll went well. */
  predicate IsCycleError(fault: Fault) {
    fault.Failed? && fault.result in {AuthFailed, AccessDenied, CycleResult.RateLimited, ReadFailed, IngestFailed, StateUnavailable}
  }

  datatype Refusal = LoginRefused | ReadRefused

  datatype Headers = Headers(retryAfter: Option<int>, updatedToken: string, token: string)
  datatype Body = Oversized | Malformed | Json(document: Document)
  datatype Reply = NetworkError | Reply(status: int, headers: Headers, body: Body)

  datatype Fetch = Fetched(document: Document) | Raised(fault: Fault)

  /** A page the console served for one request. */
  datatype Served = Served(start: int, end: int, page: nat, document: Document)

  /** What passed between the session and the console, in order, and what the session made of it.
      `until` is the time before which the named kind of request is not to be sent again. */
  datatype Exchange =
    | CycleBegun
    | LoginSent(at: int)
    | LoginAnswered(reply: Reply)
    | FlowsSent(at: int, start: int, end: int, page: nat, token: string)
    | FlowsAnswered(reply: Reply)
    | Limited(at: int, wait: int, until: int)
    | Refused(at: int, why: Refusal, until: int)
    | ReadDone

  predicate IsRequest(e: Exchange) { e.LoginSent? || e.FlowsSent? }

  /** A wait in seconds, doubled `n` times. */
  function Doubled(poll: nat, n: nat): nat {
    if n == 0 then poll else 2 * Doubled(poll, n - 1)
  }

  lemma {:induction false} DoubledIsPower(poll: nat, n: nat)
    ensures Doubled(poll, n) == poll * Pow2(n)
  {
    if n > 0 {
      DoubledIsPower(poll, n - 1);
    }
  }

  /** The spacing after `n` consecutive refusals, in seconds. */
  function Backoff(n: nat, poll: nat): nat {
    if n == 0 then 0 else Min(Doubled(poll, n - 1), MAX_LOGIN_BACKOFF_S)
  }

  /** Refusals since the last successful read. */
  function Refusals(trace: seq<Exchange>): nat {
    if trace == [] then 0 else
      var last := trace[|trace| - 1];
      if last.ReadDone? then 0
      else Refusals(trace[..|trace| - 1]) + (if last.Refused? then 1 else 0)
  }

  /** Logins sent since the cycle began. */
  function LoginsSince(trace: seq<Exchange>): nat {
    if trace == [] then 0 else
      var last := trace[|trace| - 1];
      if last.CycleBegun? then 0
      else LoginsSince(trace[..|trace| - 1]) + (if last.LoginSent? then 1 else 0)
  }

  function Cycles(trace: seq<Exchange>): nat {
    if trace == [] then 0
    else Cycles(trace[..|trace| - 1]) + (if trace[|trace| - 1].CycleBegun? then 1 else 0)
  }

  /** Between any two logins a cycle began. */
  ghost predicate OneLoginEach(trace: seq<Exchange>) {
    forall i, j | 0 <= i < j < |trace| && trace[i].LoginSent? && trace[j].LoginSent? ::
      exists m | i < m < j :: trace[m].CycleBegun?
  }

  function FlowsCount(trace: seq<Exchange>): nat {
    if trace == [] then 0
    else FlowsCount(trace[..|trace| - 1]) + (if trace[|trace| - 1].FlowsSent? then 1 else 0)
  }

  /** No request of either kind before a rate limit's end, no login before a refusal's end. */
  ghost predicate Spaced(trace: seq<Exchange>) {
    && (forall i, j | 0 <= i < j < |trace| && trace[i].Limited? && IsRequest(trace[j]) ::
          trace[i].until <= trace[j].at)
    && (forall i, j | 0 <= i < j < |trace| && trace[i].Refused? && trace[j].LoginSent? ::
          trace[i].until <= trace[j].at)
  }

  /** Every rate limit waits what the console asked, but at least a poll and at most an hour, and
      the n-th consecutive refusal waits the n-th backoff. */
  ghost predicate Measured(trace: seq<Exchange>, poll: nat) {
    && (forall i | 0 <= i < |trace| && trace[i].Limited? ::
          trace[i].until == trace[i].at + Min(Max(trace[i].wait, poll), MAX_LOGIN_BACKOFF_S) * 1000)
    && (forall i | 0 <= i < |trace| && trace[i].Refused? ::
          trace[i].until == trace[i].at + Backoff(Refusals(trace[..i + 1]), poll) * 1000)
  }

  /** The end of the latest rate limit, and of the latest refusal's spacing. */
  function LimitEnd(trace: seq<Exchange>): int {
    if trace == [] then 0
    else if trace[|trace| - 1].Limited? then trace[|trace| - 1].until
    else LimitEnd(trace[..|trace| - 1])
  }

  function RefusalEnd(trace: seq<Exchange>): int {
    if trace == [] then 0
    else if trace[|trace| - 1].Refused? then trace[|trace| - 1].until
    else RefusalEnd(trace[..|trace| - 1])
  }

  // ---------------------------------------------------------------- what an answer calls for

  /** The session a trace leaves: one the console gave in this cycle, one from before, or none. */
  datatype Standing = NoSession | Old | Fresh

  predicate GivesSession(reply: Reply) {
    reply.Reply? && reply.status == 200 && (reply.headers.updatedToken != "" || reply.headers.token != "")
  }

  predicate TooMany(reply: Reply) { reply.Reply? && reply.status == 429 }

  predicate ReadRefusal(reply: Reply) { reply.Reply? && (reply.status == 401 || reply.status == 403) }

  predicate Readable(reply: Reply) { reply.Reply? && reply.status == 200 && reply.body.Json? }

  function NextStanding(before: Standing, e: Exchange): Standing {
    match e
    case CycleBegun => if before == Fresh then Old else before
    case LoginAnswered(reply) => if GivesSession(reply) then Fresh else NoSession
    case FlowsAnswered(reply) => if ReadRefusal(reply) then NoSession else before
    case _ => before
  }

  /** The token a reply carries: an updated one before any other. */
  function Token(headers: Headers): string {
    if headers.updatedToken != "" then headers.updatedToken else headers.token
  }

  /** The token to send after an answer: the latest that the console gave while the session lasts. */
  function NextToken(before: string, e: Exchange): string {
    match e
    case LoginAnswered(reply) => if GivesSession(reply) then Token(reply.headers) else ""
    case FlowsAnswered(reply) =>
      if ReadRefusal(reply) then ""
      else if before != "" && reply.Reply? && reply.status == 200 && !reply.body.Oversized? && Token(reply.headers) != "" then
        Token(reply.headers)
      else before
    case _ => before
  }

  function TokenAfter(trace: seq<Exchange>): string {
    if trace == [] then "" else NextToken(TokenAfter(trace[..|trace| - 1]), trace[|trace| - 1])
  }

  function StandingAfter(trace: seq<Exchange>): Standing {
    if trace == [] then NoSession else NextStanding(StandingAfter(trace[..|trace| - 1]), trace[|trace| - 1])
  }

  function LatestRefusal(trace: seq<Exchange>): Refusal {
    if trace == [] then LoginRefused
    else if trace[|trace| - 1].Refused? then trace[|trace| - 1].why
    else LatestRefusal(trace[..|trace| - 1])
  }

  /** A session from an earlier cycle was refused and has been dropped. */
  predicate Dropped(trace: seq<Exchange>) {
    && trace != [] && trace[|trace| - 1].FlowsAnswered? && ReadRefusal(trace[|trace| - 1].reply)
    && StandingAfter(trace[..|trace| - 1]) == Old
  }

  /** Nothing that an answer calls for is outstanding. */
  predicate Settled(trace: seq<Exchange>) {
    trace == [] ||
    match trace[|trace| - 1]
    case LoginSent(_) => false
    case FlowsSent(_, _, _, _, _) => false
    case LoginAnswered(reply) => reply.NetworkError?
    case FlowsAnswered(reply) => !TooMany(reply) && !Readable(reply) && (ReadRefusal(reply) ==> Dropped(trace))
    case _ => true
  }

  /** A page may be asked for: the cycle has just begun, the last page was read, or a session from
      an earlier cycle has just been dropped. */
  predicate MayRead(trace: seq<Exchange>) {
    trace != [] && (trace[|trace| - 1].CycleBegun? || trace[|trace| - 1].ReadDone? || Dropped(trace))
  }

  /** May `e` follow `before`? Only the latest limit and refusal are consulted, as the two fields
      of the session do. */
  predicate MayFollow(before: seq<Exchange>, e: Exchange, poll: nat) {
    var last := if before == [] then CycleBegun else before[|before| - 1];
    match e
    case CycleBegun => Settled(before)
    case LoginSent(at) =>
      && LimitEnd(before) <= at && RefusalEnd(before) <= at && LoginsSince(before) == 0
      && StandingAfter(before) == NoSession && MayRead(before)
    case LoginAnswered(_) => last.LoginSent?
    case FlowsSent(at, _, _, _, token) =>
      && LimitEnd(before) <= at && StandingAfter(before) != NoSession && token == TokenAfter(before)
      && (MayRead(before) || (last.LoginAnswered? && GivesSession(last.reply)))
    case FlowsAnswered(_) => last.FlowsSent?
    case Limited(at, wait, until) =>
      && LimitEnd(before) <= at && until == at + Min(Max(wait, poll), MAX_LOGIN_BACKOFF_S) * 1000
      && (last.LoginAnswered? || last.FlowsAnswered?) && TooMany(last.reply) && wait == last.reply.headers.retryAfter.GetOr(0)
    case Refused(at, why, until) =>
      && RefusalEnd(before) <= at && until == at + Backoff(Refusals(before) + 1, poll) * 1000
      && (why == LoginRefused ==> last.LoginAnswered? && last.reply.Reply? && !TooMany(last.reply) && !GivesSession(last.reply))
      && (why == ReadRefused ==> last.FlowsAnswered? && ReadRefusal(last.reply) && StandingAfter(before[..|before| - 1]) == Fresh)
    case ReadDone => last.FlowsAnswered? && Readable(last.reply)
  }

  /** What follows each answer at once. A 429 to either request is recorded as a limit with the wait
      it asked for. A login that was answered, but not with a 200 that carries a token, is recorded
      as a refusal, and one that was is followed by its read. A page refused with 401 or 403 is
      recorded as a refusal if the session was made in this cycle, and is otherwise retried on a new
      login or not at all. Each request for a page carries the latest token that the console gave. A page with a readable 200 is a read. After anything else, and after a
      limit or a refusal, the cycle ends. */
  ghost predicate Heeded(trace: seq<Exchange>) {
    forall i | 0 <= i < |trace| :: HeededAt(trace, i)
  }

  ghost predicate HeededAt(trace: seq<Exchange>, i: nat)
    requires i < |trace|
  {
    var ends := i + 1 == |trace| || trace[i + 1].CycleBegun?;
    match trace[i]
    case LoginAnswered(NetworkError) => ends
    case LoginAnswered(Reply(status, headers, _)) =>
      i + 1 < |trace| &&
      if status == 429 then trace[i + 1].Limited? && trace[i + 1].wait == headers.retryAfter.GetOr(0)
      else if status == 200 && (headers.updatedToken != "" || headers.token != "") then trace[i + 1].FlowsSent?
      else trace[i + 1].Refused? && trace[i + 1].why == LoginRefused
    case FlowsAnswered(NetworkError) => ends
    case FlowsAnswered(Reply(status, headers, body)) =>
      if status == 401 || status == 403 then
        if StandingAfter(trace[..i]) == Fresh then
          i + 1 < |trace| && trace[i + 1].Refused? && trace[i + 1].why == ReadRefused
        else ends || trace[i + 1].LoginSent?
      else if status == 429 then i + 1 < |trace| && trace[i + 1].Limited? && trace[i + 1].wait == headers.retryAfter.GetOr(0)
      else if status == 200 && body.Json? then i + 1 < |trace| && trace[i + 1].ReadDone?
      else ends
    case LoginSent(_) => i + 1 < |trace| && trace[i + 1].LoginAnswered?
    case FlowsSent(_, _, _, _, _) =>
      i + 1 < |trace| && trace[i + 1].FlowsAnswered? && StandingAfter(trace[..i]) != NoSession && trace[i].token == TokenAfter(trace[..i])
    case Limited(_, _, _) => ends
    case Refused(_, _, _) => ends
    case CycleBegun => true
    case ReadDone => true
  }

  predicate Kept(trace: seq<Exchange>, poll: nat) {
    trace == [] || (Kept(trace[..|trace| - 1], poll) && MayFollow(trace[..|trace| - 1], trace[|trace| - 1], poll))
  }

  lemma {:induction false} DoubledAtLeast(poll: nat, n: nat)
    ensures Doubled(poll, n) >= poll
  {
    if n > 0 {
      DoubledAtLeast(poll, n - 1);
    }
  }

  /** Doubling the previous backoff and clamping it gives the closed form. */
  lemma BackoffDoubles(n: nat, poll: nat)
    ensures Backoff(n + 1, poll) == Min(Max(Backoff(n, poll) * 2, poll), MAX_LOGIN_BACKOFF_S)
  {
    DoubledAtLeast(poll, n);
  }

  lemma TraceStep(trace: seq<Exchange>, e: Exchange, poll: nat)
    ensures Refusals(trace + [e]) == if e.ReadDone? then 0 else Refusals(trace) + (if e.Refused? then 1 else 0)
    ensures FlowsCount(trace + [e]) == FlowsCount(trace) + (if e.FlowsSent? then 1 else 0)
    ensures LoginsSince(trace + [e]) == if e.CycleBegun? then 0 else LoginsSince(trace) + (if e.LoginSent? then 1 else 0)
    ensures Cycles(trace + [e]) == Cycles(trace) + (if e.CycleBegun? then 1 else 0)
    ensures LimitEnd(trace + [e]) == if e.Limited? then e.until else LimitEnd(trace)
    ensures RefusalEnd(trace + [e]) == if e.Refused? then e.until else RefusalEnd(trace)
    ensures StandingAfter(trace + [e]) == NextStanding(StandingAfter(trace), e)
    ensures TokenAfter(trace + [e]) == NextToken(TokenAfter(trace), e)
    ensures LatestRefusal(trace + [e]) == if e.Refused? then e.why else LatestRefusal(trace)
    ensures Kept(trace, poll) && MayFollow(trace, e, poll) ==> Kept(trace + [e], poll)
  {
    assert (trace + [e])[..|trace|] == trace;
  }

  /** Consulting only the latest times is enough: no earlier limit or refusal ends later. */
  lemma {:induction false} LatestIsLast(trace: seq<Exchange>, poll: nat, i: nat)
    requires Kept(trace, poll) && i < |trace|
    ensures trace[i].Limited? ==> trace[i].until <= LimitEnd(trace)
    ensures trace[i].Refused? ==> trace[i].until <= RefusalEnd(trace)
  {
    if i < |trace| - 1 {
      LatestIsLast(trace[..|trace| - 1], poll, i);
    }
  }

  lemma {:induction false} KeptPrefix(trace: seq<Exchange>, poll: nat, n: nat)
    requires Kept(trace, poll) && n <= |trace|
    ensures Kept(trace[..n], poll)
  {
    if n == |trace| {
      assert trace[..n] == trace;
    } else {
      KeptPrefix(trace[..|trace| - 1], poll, n);
      assert trace[..|trace| - 1][..n] == trace[..n];
    }
  }

  lemma KeptAt(trace: seq<Exchange>, poll: nat, j: nat)
    requires Kept(trace, poll) && j < |trace|
    ensures Kept(trace[..j], poll) && MayFollow(trace[..j], trace[j], poll)
    ensures trace[j].Refused? ==> Refusals(trace[..j + 1]) == Refusals(trace[..j]) + 1
  {
    KeptPrefix(trace, poll, j + 1);
    assert trace[..j + 1][..j] == trace[..j];
  }

  /** Requests respect every earlier rate limit, and logins every earlier refusal. */
  lemma RequestRespects(trace: seq<Exchange>, poll: nat, i: nat, j: nat)
    requires Kept(trace, poll) && i < j < |trace|
    ensures trace[i].Limited? && IsRequest(trace[j]) ==> trace[i].until <= trace[j].at
    ensures trace[i].Refused? && trace[j].LoginSent? ==> trace[i].until <= trace[j].at
  {
    KeptAt(trace, poll, j);
    LatestIsLast(trace[..j], poll, i);
  }

  lemma {:induction false} NoLoginSince(trace: seq<Exchange>, i: nat)
    requires LoginsSince(trace) == 0 && i < |trace| && trace[i].LoginSent?
    ensures exists m | i < m < |trace| :: trace[m].CycleBegun?
  {
    if !trace[|trace| - 1].CycleBegun? {
      var init := trace[..|trace| - 1];
      NoLoginSince(init, i);
      var m :| i < m < |init| && init[m].CycleBegun?;
      assert trace[m].CycleBegun?;
    }
  }

  /** Over every run: requests respect every earlier rate limit and logins every earlier refusal,
      and each spacing is the documented one. */
  lemma KeptIsSpaced(trace: seq<Exchange>, poll: nat)
    requires Kept(trace, poll)
    ensures Spaced(trace) && Measured(trace, poll) && OneLoginEach(trace)
  {
    hide Kept;
    forall i, j | 0 <= i < j < |trace| && trace[i].LoginSent? && trace[j].LoginSent?
      ensures exists m | i < m < j :: trace[m].CycleBegun?
    {
      KeptAt(trace, poll, j);
      NoLoginSince(trace[..j], i);
      var m :| i < m < j && trace[..j][m].CycleBegun?;
      assert trace[m].CycleBegun?;
    }
    forall i, j | 0 <= i < j < |trace|
      ensures trace[i].Limited? && IsRequest(trace[j]) ==> trace[i].until <= trace[j].at
      ensures trace[i].Refused? && trace[j].LoginSent? ==> trace[i].until <= trace[j].at
    {
      RequestRespects(trace, poll, i, j);
    }
    forall i | 0 <= i < |trace|
      ensures MayFollow(trace[..i], trace[i], poll)
      ensures trace[i].Refused? ==> Refusals(trace[..i + 1]) == Refusals(trace[..i]) + 1
    {
      KeptAt(trace, poll, i);
    }
  }

  lemma HeededNext(trace: seq<Exchange>, poll: nat, i: nat)
    requires Kept(trace, poll) && i < |trace|
    requires i + 1 == |trace| ==> Settled(trace)
    ensures HeededAt(trace, i)
  {
    KeptAt(trace, poll, i);
    if i + 1 < |trace| {
      KeptAt(trace, poll, i + 1);
      assert trace[..i + 1][..i] == trace[..i];
    } else {
      assert trace[..i + 1] == trace;
    }
  }

  /** Over every run each answer is heeded. */
  lemma KeptIsHeeded(trace: seq<Exchange>, poll: nat)
    requires Kept(trace, poll) && Settled(trace)
    ensures Heeded(trace)
  {
    forall i | 0 <= i < |trace| ensures HeededAt(trace, i) {
      HeededNext(trace, poll, i);
    }
  }

  /** The closed form of the backoff, in the terms the session's record keeps it. */
  lemma RefusalSpacing(trace: seq<Exchange>, poll: nat, i: nat)
    requires Kept(trace, poll) && i < |trace| && trace[i].Refused?
    ensures var n := Refusals(trace[..i + 1]);
            n >= 1 && trace[i].until == trace[i].at + Min(poll * Pow2(n - 1), MAX_LOGIN_BACKOFF_S) * 1000
  {
    var n := Refusals(trace[..i + 1]);
    KeptIsSpaced(trace, poll);
    assert trace[..i + 1][|trace[..i + 1]| - 1] == trace[i];
    DoubledIsPower(poll, n - 1);
  }

  /** What an error rests on: the last answer or, when nothing more was sent, a wait that is not over
      by `at` or a password that could not be read. */
  ghost predicate Blamed(fault: Fault, trace: seq<Exchange>, at: int, unreadableBefore: nat, unreadable: nat) {
    && IsCycleError(fault) && trace != []
    && if MayRead(trace) then
         match fault.result
         case RateLimited => at < LimitEnd(trace)
         case AccessDenied => at < RefusalEnd(trace) && LatestRefusal(trace) == ReadRefused
         case AuthFailed => (at < RefusalEnd(trace) && LatestRefusal(trace) == LoginRefused) || unreadableBefore < unreadable
         case _ => false
       else
         match trace[|trace| - 1]
         case Limited(_, _, _) => fault.result == CycleResult.RateLimited
         case Refused(_, why, _) => fault.result == if why == LoginRefused then AuthFailed else AccessDenied
         case LoginAnswered(reply) => fault.result == ReadFailed && reply.NetworkError?
         case FlowsAnswered(reply) => fault.result == ReadFailed && !Readable(reply)
         case _ => false
  }

  lemma BlamedSince(fault: Fault, trace: seq<Exchange>, at: int, earlier: int, before: nat, atFirst: nat, unreadable: nat)
    requires Blamed(fault, trace, at, before, unreadable) && earlier <= at && atFirst <= before
    ensures Blamed(fault, trace, earlier, atFirst, unreadable)
  {
  }

  class Console {
    const poll: nat
    const clock: Clock
    var csrf: string            // "" stands for no session
    var isFresh: bool
    var loginAfter: int
    var backoff: int
    var refusal: Refusal
    var requestsAfter: int
    var loginsOk: nat
    var loginsFailed: nat
    ghost var trace: seq<Exchange>
    ghost var served: seq<Served>
    ghost var loginsThisCycle: nat
    ghost var unreadable: nat   // failures to read the password

    /** The times and counts kept are those of the trace. */
    ghost predicate Steady()
      reads this
    {
      && Kept(trace, poll) && requestsAfter == LimitEnd(trace) && loginAfter == RefusalEnd(trace)
      && backoff == Backoff(Refusals(trace), poll) && refusal == LatestRefusal(trace)
      && loginsThisCycle == LoginsSince(trace) <= 1
    }

    /** And so is the session, between two calls. */
    ghost predicate Valid()
      reads this, clock
    {
      && Steady() && Settled(trace)
      && csrf == TokenAfter(trace) && (csrf == "" <==> StandingAfter(trace) == NoSession)
      && (csrf != "" ==> (isFresh <==> StandingAfter(trace) == Fresh))
      && (isFresh && csrf != "" ==> loginAfter <= clock.now)
    }

    /** The cycle has not ended: no login was sent, or the one sent gave a session in use. */
    ghost predicate Live()
      reads this
    {
      MayRead(trace) && if isFresh then loginsThisCycle == 1 && csrf != "" else loginsThisCycle == 0
    }

    constructor (poll: nat, clock: Clock)
      ensures Valid() && this.poll == poll && this.clock == clock && trace == [] && served == [] && unreadable == 0
    {
      this.poll, this.clock := poll, clock;
      csrf, isFresh, refusal := "", false, LoginRefused;
      loginAfter, backoff, requestsAfter := 0, 0, 0;
      loginsOk, loginsFailed := 0, 0;
      trace, served, loginsThisCycle, unreadable := [], [], 0, 0;
    }

    method BeginCycle()
      requires Valid()
      modifies this`isFresh, this`loginsThisCycle, this`trace
      ensures Valid() && Live() && !isFresh && trace == old(trace) + [CycleBegun]
      ensures Cycles(trace) == Cycles(old(trace)) + 1
    {
      TraceStep(trace, CycleBegun, poll);
      isFresh, loginsThisCycle := false, 0;
      trace := trace + [CycleBegun];
    }

    /** Add to the trace what leaves the times and counts alone. */
    ghost method Note(e: Exchange)
      requires Steady() && MayFollow(trace, e, poll) && !e.Limited? && !e.Refused? && !e.ReadDone? && !e.CycleBegun?
      modifies this`trace, this`loginsThisCycle
      ensures Steady() && trace == old(trace) + [e]
      ensures loginsThisCycle == old(loginsThisCycle) + (if e.LoginSent? then 1 else 0)
      ensures FlowsCount(trace) == FlowsCount(old(trace)) + (if e.FlowsSent? then 1 else 0)
      ensures Cycles(trace) == Cycles(old(trace))
      ensures StandingAfter(trace) == NextStanding(StandingAfter(old(trace)), e)
      ensures TokenAfter(trace) == NextToken(TokenAfter(old(trace)), e)
      ensures LimitEnd(trace) == LimitEnd(old(trace)) && RefusalEnd(trace) == RefusalEnd(old(trace))
    {
      TraceStep(trace, e, poll);
      trace := trace + [e];
      if e.LoginSent? { loginsThisCycle := loginsThisCycle + 1; }
    }

    /** A POST: any reply, after any time. */
    method Post(ghost request: Exchange) returns (reply: Reply)
      requires Steady() && IsRequest(request) && request.at == clock.now && MayFollow(trace, request, poll)
      modifies this`trace, this`loginsThisCycle, clock
      ensures Steady() && trace == old(trace) + [request, Answer(request, reply)]
      ensures loginsThisCycle == old(loginsThisCycle) + (if request.LoginSent? then 1 else 0)
      ensures FlowsCount(trace) == FlowsCount(old(trace)) + (if request.FlowsSent? then 1 else 0)
      ensures Cycles(trace) == Cycles(old(trace)) && clock.now >= old(clock.now)
      ensures StandingAfter(trace[..|trace| - 1]) == StandingAfter(old(trace))
      ensures StandingAfter(trace) == NextStanding(StandingAfter(old(trace)), Answer(request, reply))
      ensures TokenAfter(trace) == NextToken(TokenAfter(old(trace)), Answer(request, reply))
    {
      Note(request);
      ghost var sent := trace;
      var _ := clock.Read();
      reply := *;
      Note(Answer(request, reply));
      assert trace[..|trace| - 1] == sent;
    }

    /** Double the wait before the next login. */
    method Refuse(why: Refusal)
      requires Steady() && loginAfter <= clock.now && csrf == "" && StandingAfter(trace) == NoSession && TokenAfter(trace) == ""
      requires forall at, until | RefusalEnd(trace) <= at && until == at + Backoff(Refusals(trace) + 1, poll) * 1000 ::
                 MayFollow(trace, Refused(at, why, until), poll)
      modifies this`refusal, this`backoff, this`loginAfter, this`trace, clock
      ensures Valid() && refusal == why
      ensures backoff == Backoff(Refusals(old(trace)) + 1, poll)
      ensures trace == old(trace) + [Refused(clock.now, why, loginAfter)]
      ensures FlowsCount(trace) == FlowsCount(old(trace)) && Cycles(trace) == Cycles(old(trace))
      ensures clock.now >= old(clock.now)
    {
      hide Kept, Refusals, FlowsCount, LoginsSince, Cycles, LimitEnd, RefusalEnd, Backoff, StandingAfter, LatestRefusal, TokenAfter;
      refusal := why;
      BackoffDoubles(Refusals(trace), poll);
      backoff := Min(Max(backoff * 2, poll), MAX_LOGIN_BACKOFF_S);
      var now := clock.Read();
      loginAfter := now + backoff * 1000;
      TraceStep(trace, Refused(now, why, loginAfter), poll);
      trace := trace + [Refused(now, why, loginAfter)];
    }

    /** A 429: no request before the wait the console asked for, at least a poll, at most an hour. */
    method RateLimit(headers: Headers) returns (fault: Fault)
      requires Steady() && requestsAfter <= clock.now && trace != []
      requires trace[|trace| - 1].LoginAnswered? || trace[|trace| - 1].FlowsAnswered?
      requires TooMany(trace[|trace| - 1].reply) && trace[|trace| - 1].reply.headers == headers
      modifies this`requestsAfter, this`trace, clock
      ensures Steady() && Settled(trace) && fault == Failed(CycleResult.RateLimited)
      ensures trace == old(trace) + [Limited(clock.now, headers.retryAfter.GetOr(0), requestsAfter)]
      ensures FlowsCount(trace) == FlowsCount(old(trace)) && Cycles(trace) == Cycles(old(trace))
      ensures StandingAfter(trace) == StandingAfter(old(trace)) && TokenAfter(trace) == TokenAfter(old(trace))
      ensures clock.now >= old(clock.now)
    {
      var wait := headers.retryAfter.GetOr(0);
      var now := clock.Read();
      requestsAfter := now + Min(Max(wait, poll), MAX_LOGIN_BACKOFF_S) * 1000;
      TraceStep(trace, Limited(now, wait, requestsAfter), poll);
      trace := trace + [Limited(now, wait, requestsAfter)];
      fault := Failed(CycleResult.RateLimited);
    }

    method TakeToken(headers: Headers)
      modifies this`csrf
      ensures csrf == if headers.updatedToken != "" then headers.updatedToken
                      else if headers.token != "" then headers.token else old(csrf)
    {
      var token := if headers.updatedToken != "" then headers.updatedToken else headers.token;
      if token != "" {
        csrf := token;
      }
    }

    method DropSession()
      modifies this`csrf
      ensures csrf == ""
    {
      csrf := "";
    }

    /** Log in once, unless a refused attempt is still being spaced out. */
    method Login() returns (fault: Option<Fault>)
      requires Valid() && csrf == "" && Live() && requestsAfter <= clock.now
      modifies this`csrf, this`isFresh, this`loginAfter, this`backoff, this`refusal, this`requestsAfter, this`loginsOk, this`loginsFailed
      modifies this`trace, this`loginsThisCycle, this`unreadable, clock
      ensures clock.now >= old(clock.now) && old(unreadable) <= unreadable
      ensures fault.None? ==> && Steady() && isFresh && csrf != "" && csrf == TokenAfter(trace) && loginsThisCycle == 1 && StandingAfter(trace) == Fresh
                              && requestsAfter <= clock.now && loginAfter <= clock.now
                              && trace != [] && trace[|trace| - 1].LoginAnswered? && GivesSession(trace[|trace| - 1].reply)
      ensures loginsOk == old(loginsOk) + if fault.None? then 1 else 0
      ensures loginsFailed == old(loginsFailed) + if trace != old(trace) && trace != [] && trace[|trace| - 1].Refused? then 1 else 0
      ensures fault.Some? ==> Valid() && Blamed(fault.value, trace, clock.now, old(unreadable), unreadable)
      ensures FlowsCount(trace) == FlowsCount(old(trace)) && Cycles(trace) == Cycles(old(trace)) && old(trace) <= trace
    {
      hide Kept, Refusals, FlowsCount, LoginsSince, Cycles, LimitEnd, RefusalEnd, Backoff, StandingAfter, LatestRefusal, TokenAfter;
      var now := clock.Read();
      if now < loginAfter {
        return Some(Failed(if refusal == LoginRefused then CycleResult.AuthFailed else CycleResult.AccessDenied));
      }
      var secretReadable: bool := *;
      if !secretReadable {
        unreadable := unreadable + 1;
        return Some(Failed(CycleResult.AuthFailed));
      }
      fault := SendLogin();
    }

    /** The login request and what its answer calls for. */
    method SendLogin() returns (fault: Option<Fault>)
      requires Valid() && csrf == "" && Live() && requestsAfter <= clock.now && loginAfter <= clock.now
      modifies this`csrf, this`isFresh, this`loginAfter, this`backoff, this`refusal, this`requestsAfter, this`loginsOk, this`loginsFailed
      modifies this`trace, this`loginsThisCycle, clock
      ensures clock.now >= old(clock.now) && old(trace) <= trace && trace != old(trace)
      ensures fault.None? ==> && Steady() && isFresh && csrf != "" && csrf == TokenAfter(trace) && loginsThisCycle == 1
                              && StandingAfter(trace) == Fresh && requestsAfter <= clock.now && loginAfter <= clock.now
                              && trace[|trace| - 1].LoginAnswered? && GivesSession(trace[|trace| - 1].reply)
      ensures fault.Some? ==> && Valid()
                              && match trace[|trace| - 1]
                                 case Limited(_, _, _) => fault == Some(Failed(CycleResult.RateLimited))
                                 case Refused(_, why, _) => why == LoginRefused && fault == Some(Failed(AuthFailed))
                                 case LoginAnswered(reply) => reply.NetworkError? && fault == Some(Failed(ReadFailed))
                                 case _ => false
      ensures loginsOk == old(loginsOk) + if fault.None? then 1 else 0
      ensures loginsFailed == old(loginsFailed) + if trace[|trace| - 1].Refused? then 1 else 0
      ensures FlowsCount(trace) == FlowsCount(old(trace)) && Cycles(trace) == Cycles(old(trace))
    {
      hide Kept, Refusals, FlowsCount, LoginsSince, Cycles, LimitEnd, RefusalEnd, Backoff, StandingAfter, LatestRefusal, TokenAfter;
      var reply := Post(LoginSent(clock.now));
      if reply.NetworkError? {
        return Some(Failed(CycleResult.ReadFailed));
      }
      if reply.status == 429 {
        var f := RateLimit(reply.headers);
        return Some(f);
      }
      TakeToken(reply.headers);
      if reply.status != 200 || csrf == "" {
        loginsFailed := loginsFailed + 1;
        DropSession();
        Refuse(LoginRefused);
        return Some(Failed(CycleResult.AuthFailed));
      }
      loginsOk := loginsOk + 1;
      isFresh := true;
      fault := None;
    }

    /** What a reply other than a refusal means. */
    method Settle(reply: Reply) returns (fetch: Fetch)
      requires Steady() && csrf != "" && requestsAfter <= clock.now && (isFresh ==> loginAfter <= clock.now)
      requires trace != [] && trace[|trace| - 1] == FlowsAnswered(reply) && !ReadRefusal(reply)
      requires StandingAfter(trace) == (if isFresh then Fresh else Old) && loginsThisCycle == if isFresh then 1 else 0
      requires TokenAfter(trace) == NextToken(csrf, FlowsAnswered(reply))
      modifies this`csrf, this`backoff, this`requestsAfter, this`trace, clock
      ensures Valid() && old(trace) <= trace && clock.now >= old(clock.now)
      ensures fetch.Fetched? ==> Live() && backoff == 0
      ensures fetch.Fetched? <==> reply.Reply? && reply.status == 200 && reply.body.Json?
      ensures fetch.Fetched? ==> fetch.document == reply.body.document && trace == old(trace) + [ReadDone]
      ensures reply.Reply? && reply.status == 429 ==>
                && fetch == Raised(Failed(CycleResult.RateLimited))
                && trace == old(trace) + [Limited(clock.now, reply.headers.retryAfter.GetOr(0), requestsAfter)]
      ensures fetch.Raised? && !(reply.Reply? && reply.status == 429) ==> fetch == Raised(Failed(ReadFailed)) && trace == old(trace)
      ensures FlowsCount(trace) == FlowsCount(old(trace)) && Cycles(trace) == Cycles(old(trace))
    {
      hide Kept, Refusals, FlowsCount, LoginsSince, Cycles, LimitEnd, RefusalEnd, Backoff, StandingAfter, LatestRefusal, TokenAfter;
      if reply.NetworkError? {
        return Raised(Failed(CycleResult.ReadFailed));
      }
      if reply.status == 429 {
        var f := RateLimit(reply.headers);
        return Raised(f);
      }
      if reply.status != 200 || reply.body.Oversized? {
        return Raised(Failed(CycleResult.ReadFailed));
      }
      TakeToken(reply.headers);
      if reply.body.Malformed? {
        return Raised(Failed(CycleResult.ReadFailed));
      }
      backoff := 0;
      NothingRefused(trace, poll);
      TraceStep(trace, ReadDone, poll);
      trace := trace + [ReadDone];
      fetch := Fetched(reply.body.document);
    }

    /** One page of one window. A read refused by a session from an earlier cycle is retried once
        on a new session; nothing else is retried. */
    method Flows(start: int, end: int, page: nat) returns (fetch: Fetch)
      requires Valid() && Live()
      modifies this, clock
      ensures Valid() && old(trace) <= trace && clock.now >= old(clock.now)
      ensures fetch.Fetched? ==> Live() && backoff == 0 && Delivered(trace, start, end, page, fetch.document)
      ensures old(unreadable) <= unreadable && (fetch.Raised? ==> Blamed(fetch.fault, trace, clock.now, old(unreadable), unreadable))
      ensures FlowsCount(trace) <= FlowsCount(old(trace)) + (if old(csrf) != "" && !old(isFresh) then 2 else 1)
      ensures Cycles(trace) == Cycles(old(trace))
      ensures served == old(served) + (if fetch.Fetched? then [Served(start, end, page, fetch.document)] else [])
      decreases if csrf != "" && !isFresh then 1 else 0, 2
    {
      hide Kept, Refusals, FlowsCount, LoginsSince, Cycles, LimitEnd, RefusalEnd, Backoff, StandingAfter, LatestRefusal, TokenAfter;
      var now := clock.Read();
      if now < requestsAfter {
        return Raised(Failed(CycleResult.RateLimited));
      }
      if csrf == "" {
        var fault := Login();
        if fault.Some? {
          return Raised(fault.value);
        }
      }
      fetch := Ask(start, end, page);
    }

    /** The request itself, on the session in use. */
    method Ask(start: int, end: int, page: nat) returns (fetch: Fetch)
      requires Steady() && csrf != "" && csrf == TokenAfter(trace) && requestsAfter <= clock.now && (isFresh ==> loginAfter <= clock.now)
      requires StandingAfter(trace) == (if isFresh then Fresh else Old) && loginsThisCycle == if isFresh then 1 else 0
      requires MayRead(trace) || (trace != [] && trace[|trace| - 1].LoginAnswered? && GivesSession(trace[|trace| - 1].reply))
      modifies this, clock
      ensures Valid() && old(trace) <= trace && clock.now >= old(clock.now) && old(unreadable) <= unreadable
      ensures fetch.Fetched? ==> Live() && backoff == 0 && Delivered(trace, start, end, page, fetch.document)
      ensures fetch.Raised? ==> Blamed(fetch.fault, trace, clock.now, old(unreadable), unreadable)
      ensures FlowsCount(trace) <= FlowsCount(old(trace)) + (if old(isFresh) then 1 else 2)
      ensures Cycles(trace) == Cycles(old(trace))
      ensures served == old(served) + (if fetch.Fetched? then [Served(start, end, page, fetch.document)] else [])
      decreases if isFresh then 0 else 1, 1
    {
      hide Kept, Refusals, FlowsCount, LoginsSince, Cycles, LimitEnd, RefusalEnd, Backoff, StandingAfter, LatestRefusal, TokenAfter;
      var reply := Post(FlowsSent(clock.now, start, end, page, csrf));
      if reply.Reply? && (reply.status == 401 || reply.status == 403) {
        fetch := Refetch(start, end, page, !isFresh);
      } else {
        fetch := Settle(reply);
        if fetch.Fetched? {
          served := served + [Served(start, end, page, reply.body.document)];
        }
      }
    }

    /** A 401 or 403: drop the session, and either retry on a new one or give up for the cycle. */
    method Refetch(start: int, end: int, page: nat, reused: bool) returns (fetch: Fetch)
      requires Steady() && csrf != "" && reused == !isFresh && (isFresh ==> loginAfter <= clock.now)
      requires trace != [] && trace[|trace| - 1].FlowsAnswered? && ReadRefusal(trace[|trace| - 1].reply)
      requires StandingAfter(trace) == NoSession && TokenAfter(trace) == ""
      requires StandingAfter(trace[..|trace| - 1]) == (if isFresh then Fresh else Old) && loginsThisCycle == if isFresh then 1 else 0
      modifies this, clock
      ensures Valid() && old(trace) <= trace && clock.now >= old(clock.now)
      ensures fetch.Fetched? ==> reused && Live() && backoff == 0 && Delivered(trace, start, end, page, fetch.document)
      ensures !reused ==> fetch == Raised(Failed(CycleResult.AccessDenied)) && csrf == "" && trace == old(trace) + [Refused(clock.now, ReadRefused, loginAfter)]
      ensures old(unreadable) <= unreadable && (fetch.Raised? ==> Blamed(fetch.fault, trace, clock.now, old(unreadable), unreadable))
      ensures FlowsCount(trace) <= FlowsCount(old(trace)) + (if reused then 1 else 0)
      ensures Cycles(trace) == Cycles(old(trace))
      ensures served == old(served) + (if fetch.Fetched? then [Served(start, end, page, fetch.document)] else [])
      decreases if reused then 1 else 0, 0
    {
      hide Kept, Refusals, FlowsCount, LoginsSince, Cycles, LimitEnd, RefusalEnd, Backoff, StandingAfter, LatestRefusal, TokenAfter;
      DropSession();
      if reused {
        fetch := Flows(start, end, page);
      } else {
        Refuse(ReadRefused);
        fetch := Raised(Failed(CycleResult.AccessDenied));
      }
    }
  }

  /** The trace ends with a request for this page and a success answer with this document. */
  predicate Delivered(trace: seq<Exchange>, start: int, end: int, page: nat, document: Document) {
    var n := |trace|;
    && n >= 3 && trace[n - 1].ReadDone?
    && trace[n - 2].FlowsAnswered? && Readable(trace[n - 2].reply) && trace[n - 2].reply.body.document == document
    && trace[n - 3].FlowsSent? && trace[n - 3] == FlowsSent(trace[n - 3].at, start, end, page, trace[n - 3].token)
  }

  function Answer(request: Exchange, reply: Reply): Exchange
    requires IsRequest(request)
  {
    if request.LoginSent? then LoginAnswered(reply) else FlowsAnswered(reply)
  }

  lemma NothingRefused(trace: seq<Exchange>, poll: nat)
    ensures Backoff(Refusals(trace + [ReadDone]), poll) == 0
  {
    TraceStep(trace, ReadDone, poll);
  }
}
