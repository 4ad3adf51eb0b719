// The connection of a Socket.IO client: opening, closing, and reconnecting after
// a failure with growing delays.

module SioClient {
  datatype ConState = Opening | Opened | Closing | Closed

  // The connection underneath: none, being dialled, or up.
  datatype Link = Idle | Dialing | Up

  // The client's fields, and what the event loop still holds for it: a dial and
  // a close that were dispatched, the reconnect timer, and a timer handler that
  // is due and can no longer be cancelled.
  datatype Client = Client(
    con: ConState, made: nat, delay: nat, delayMax: nat, attempts: nat, abort: bool,
    thread: bool, session: bool, armed: bool, due: bool, dials: nat, closes: nat, link: Link)

  const DEFAULT_ATTEMPTS: nat := 0xFFFF_FFFF

  function Initial(): Client {
    Client(Closed, 0, 5000, 25000, DEFAULT_ATTEMPTS, false, false, false, false, false, 0, 0, Idle)
  }

  /* Delays */

  function Pow(b: nat, n: nat): (p: nat)
    requires b > 0
    ensures p > 0
  {
    if n == 0 then 1
    else
      Positive(b, Pow(b, n - 1));
      b * Pow(b, n - 1)
  }

  lemma {:induction false} Positive(a: nat, b: nat)
    requires a > 0 && b > 0
    ensures a * b > 0
  {
  }

  function Least(a: nat, b: nat): nat { if a < b then a else b }

  // The delay times one and a half to the power of the attempts made, at most
  // 32 of them, cut off at the maximum.
  function NextDelay(made: nat, delay: nat, delayMax: nat): nat {
    var n := Least(made, 32);
    Least(delay * Pow(3, n) / Pow(2, n), delayMax)
  }

  lemma {:induction false} QuotientAtLeast(x: nat, d: nat, q: nat)
    requires d > 0 && x >= q * d
    ensures x / d >= q
  {
    if x / d < q {
      var k := q - x / d;
      assert x == x / d * d + x % d;
      assert k * d <= x % d;
      AtLeastOnce(k, d);
      assert false;
    }
  }

  lemma {:induction false} AtLeastOnce(k: nat, d: nat)
    requires k > 0
    ensures k * d >= d
  {
  }

  lemma {:induction false} HalfMore(a: nat, b: nat)
    requires b > 0
    ensures a / b <= (3 * a) / (2 * b)
  {
    var q := a / b;
    assert a >= q * b;
    assert q * (2 * b) == 2 * (q * b);
    QuotientAtLeast(3 * a, 2 * b, q);
  }

  lemma {:induction false} GrowsByHalf(delay: nat, n: nat)
    ensures delay * Pow(3, n) / Pow(2, n) <= delay * Pow(3, n + 1) / Pow(2, n + 1)
  {
    Rotate(delay, Pow(3, n));
    HalfMore(delay * Pow(3, n), Pow(2, n));
  }

  lemma {:induction false} Rotate(delay: nat, p: nat)
    ensures delay * (3 * p) == 3 * (delay * p)
  {
  }

  lemma {:induction false} ScaledGrows(delay: nat, m: nat, n: nat)
    requires m <= n
    ensures delay * Pow(3, m) / Pow(2, m) <= delay * Pow(3, n) / Pow(2, n)
    decreases n
  {
    hide Pow;
    if m < n {
      ScaledGrows(delay, m, n - 1);
      GrowsByHalf(delay, n - 1);
    }
  }

  // With fixed settings the delay never falls as attempts are made, stays within
  // the maximum, and starts at the smaller of the two settings.
  lemma {:induction false} DelayGrows(m: nat, n: nat, delay: nat, delayMax: nat)
    requires m <= n
    ensures NextDelay(m, delay, delayMax) <= NextDelay(n, delay, delayMax) <= delayMax
    ensures NextDelay(0, delay, delayMax) == Least(delay, delayMax)
  {
    ScaledGrows(delay, Least(m, 32), Least(n, 32));
    assert Pow(3, 0) == 1 && Pow(2, 0) == 1;
  }

  /* Handlers and calls, each one step */

  // A dial may not even start: the address was refused.
  function ConnectImpl(c: Client, starts: bool): Client {
    if c.dials == 0 then c else c.(dials := c.dials - 1, link := if starts then Dialing else Idle)
  }

  // Cancels the timer; there is nothing to close without a session.
  function CloseImpl(c: Client): Client {
    if c.closes == 0 then c else c.(closes := c.closes - 1, armed := false)
  }

  function Close(c: Client): Client { c.(con := Closing, abort := true, closes := c.closes + 1) }

  // The event loop has nothing left to do: its thread can be joined.
  predicate Drained(c: Client) { !c.armed && !c.due && c.dials == 0 && c.closes == 0 && c.link == Idle }

  // Cancels the timer, waits for the old thread where there is one, and starts
  // anew; does nothing more while a connection is open or being opened.
  function Connect(c: Client): Client {
    var d := c.(armed := false);
    if d.thread && (d.con == Opening || d.con == Opened) then d
    else d.(con := Opening, made := 0, abort := false, thread := true, dials := 1)
  }

  function TimerExpires(c: Client): Client { if c.armed then c.(armed := false, due := true) else c }

  // The timer handler: an attempt, unless the client is no longer closed.
  function TimeoutReconnect(c: Client): Client {
    if !c.due then c
    else if c.con == Closed then c.(due := false, con := Opening, made := c.made + 1, dials := c.dials + 1)
    else c.(due := false)
  }

  predicate Retries(c: Client) { c.made < c.attempts && !c.abort }

  function OnFail(c: Client): Client {
    if c.con == Closing then Close(c.(link := Idle))
    else c.(link := Idle, session := false, con := Closed, armed := if Retries(c) then true else c.armed)
  }

  function OnOpen(c: Client): Client {
    if c.con == Closing then Close(c.(link := Up))
    else c.(link := Up, con := Opened, session := true, made := 0)
  }

  // The local close code says whether this side ended the connection.
  function OnClose(c: Client, normal: bool): Client {
    var d := c.(link := Idle, con := Closed, session := false);
    if normal || c.con == Closing then d
    else d.(armed := if Retries(c) then true else c.armed)
  }

  function SetAttempts(c: Client, n: nat): Client { c.(attempts := n) }

  function SetDelay(c: Client, n: nat): Client {
    c.(delay := n, delayMax := if c.delayMax < n then n else c.delayMax)
  }

  function SetDelayMax(c: Client, n: nat): Client {
    c.(delayMax := n, delay := if c.delay > n then n else c.delay)
  }

  // The client object; what happens on the network calls its handlers.
  class ClientImpl {
    var con: ConState
    var made: nat
    var delay: nat
    var delayMax: nat
    var attempts: nat
    var abort: bool
    var thread: bool
    var session: bool
    var armed: bool
    var due: bool
    var dials: nat
    var closes: nat
    var link: Link
    var announced: seq<nat>

    ghost function Value(): Client
      reads this
    {
      Client(con, made, delay, delayMax, attempts, abort, thread, session, armed, due, dials, closes, link)
    }

    constructor ()
      ensures Value() == Initial() && announced == []
    {
      con, made, delay, delayMax, attempts, abort := Closed, 0, 5000, 25000, DEFAULT_ATTEMPTS, false;
      thread, session, armed, due, dials, closes, link, announced := false, false, false, false, 0, 0, Idle, [];
    }

    method DoConnect()
      requires Enabled(Value(), UserConnects)
      modifies this`armed, this`thread, this`con, this`made, this`abort, this`dials
      ensures Value() == Connect(old(Value())) && announced == old(announced)
    {
      armed := false;
      if thread {
        if con == Closing || con == Closed {
          thread := false;
        } else {
          return;
        }
      }
      Dial();
    }

    // Starts anew: no attempts made, retries allowed, a dial dispatched on a new thread.
    method Dial()
      modifies this`thread, this`con, this`made, this`abort, this`dials
      ensures Value() == old(Value()).(con := Opening, made := 0, abort := false, thread := true, dials := 1)
    {
      con := Opening;
      made := 0;
      abort := false;
      dials := 1;
      thread := true;
    }

    method DoClose()
      modifies this`con, this`abort, this`closes
      ensures Value() == Close(old(Value())) && announced == old(announced)
    {
      con := Closing;
      abort := true;
      closes := closes + 1;
    }

    method HandleTimeout()
      requires due
      modifies this`due, this`con, this`made, this`dials
      ensures Value() == TimeoutReconnect(old(Value())) && announced == old(announced)
    {
      due := false;
      if con == Closed {
        con := Opening;
        made := made + 1;
        dials := dials + 1;
      }
    }

    method ComputeDelay() returns (d: nat)
      ensures d == NextDelay(made, delay, delayMax)
    {
      var n := if made < 32 then made else 32;
      var power, root := 1, 1;
      var i := 0;
      while i < n
        invariant 0 <= i <= n && power == Pow(3, i) && root == Pow(2, i)
      {
        power, root := 3 * power, 2 * root;
        i := i + 1;
      }
      var scaled := delay * power / root;
      d := if scaled < delayMax then scaled else delayMax;
    }

    // Announces the delay and sets the timer, if retries are left.
    method Retry()
      modifies this`announced, this`armed
      ensures Value() == if Retries(old(Value())) then old(Value()).(armed := true) else old(Value())
      ensures announced == old(announced) + if Retries(old(Value())) then [NextDelay(made, delay, delayMax)] else []
    {
      hide NextDelay;
      if made < attempts && !abort {
        var d := ComputeDelay();
        announced := announced + [d];
        armed := true;
      }
    }

    // The connection is gone.
    method Lose()
      modifies this`link, this`con, this`session
      ensures Value() == old(Value()).(link := Idle, con := Closed, session := false)
    {
      link := Idle;
      session := false;
      con := Closed;
    }

    method HandleFail()
      requires link == Dialing
      modifies this`link, this`con, this`abort, this`closes, this`session, this`announced, this`armed
      ensures Value() == OnFail(old(Value()))
      ensures announced == old(announced) + Announces(old(Value()), Failed)
    {
      hide NextDelay;
      if con == Closing {
        link := Idle;
        DoClose();
        return;
      }
      Lose();
      Retry();
    }

    method HandleOpen()
      requires link == Dialing
      modifies this`link, this`con, this`abort, this`closes, this`session, this`made
      ensures Value() == OnOpen(old(Value())) && announced == old(announced)
    {
      link := Up;
      if con == Closing {
        DoClose();
        return;
      }
      con := Opened;
      session := true;
      made := 0;
    }

    method HandleClose(normal: bool)
      requires link == Up
      modifies this`link, this`con, this`session, this`announced, this`armed
      ensures Value() == OnClose(old(Value()), normal)
      ensures announced == old(announced) + Announces(old(Value()), Dropped(normal))
    {
      hide NextDelay;
      var was := con;
      Lose();
      if normal || was == Closing {
        return;
      }
      Retry();
    }
  }

  /* Runs */

  datatype Event =
    | UserConnects
    | UserCloses
    | DialRuns(starts: bool)
    | CloseRuns
    | Expires
    | Handled
    | Failed
    | Opens
    | Dropped(normal: bool)
    | PolicyClose
    | AttemptsSet(n: nat)
    | DelaySet(n: nat)
    | DelayMaxSet(n: nat)

  // What can happen when: each connection fails or opens once, and an open one
  // closes once; joining the old thread takes until nothing is left to do.
  predicate Enabled(c: Client, e: Event) {
    match e
    case UserConnects => !c.thread || c.con == Opening || c.con == Opened || Drained(c.(armed := false))
    case DialRuns(_) => c.dials > 0
    case CloseRuns => c.closes > 0
    case Expires => c.armed
    case Handled => c.due
    case Failed => c.link == Dialing
    case Opens => c.link == Dialing
    case Dropped(_) => c.link == Up
    case PolicyClose => c.link == Up
    case _ => true
  }

  function Step(c: Client, e: Event): Client {
    match e
    case UserConnects => Connect(c)
    case UserCloses => Close(c)
    case DialRuns(starts) => ConnectImpl(c, starts)
    case CloseRuns => CloseImpl(c)
    case Expires => TimerExpires(c)
    case Handled => TimeoutReconnect(c)
    case Failed => OnFail(c)
    case Opens => OnOpen(c)
    case Dropped(normal) => OnClose(c, normal)
    case PolicyClose => c.(closes := c.closes + 1)
    case AttemptsSet(n) => SetAttempts(c, n)
    case DelaySet(n) => SetDelay(c, n)
    case DelayMaxSet(n) => SetDelayMax(c, n)
  }

  predicate Possible(c: Client, run: seq<Event>)
    decreases |run|
  {
    run == [] || (Enabled(c, run[0]) && Possible(Step(c, run[0]), run[1..]))
  }

  function Run(c: Client, run: seq<Event>): Client
    decreases |run|
  {
    if run == [] then c else Run(Step(c, run[0]), run[1..])
  }

  // A reconnect attempt: the timer handler finds the client closed.
  predicate IsAttempt(c: Client, e: Event) { e == Handled && c.due && c.con == Closed }

  function Attempts(c: Client, run: seq<Event>): nat
    decreases |run|
  {
    if run == [] then 0 else (if IsAttempt(c, run[0]) then 1 else 0) + Attempts(Step(c, run[0]), run[1..])
  }

  // The delay that a step announces when it sets the timer.
  function Announces(c: Client, e: Event): seq<nat> {
    if (e == Failed || e == Dropped(false)) && c.con != Closing && Retries(c) then
      [NextDelay(c.made, c.delay, c.delayMax)]
    else []
  }

  function Delays(c: Client, run: seq<Event>): seq<nat>
    decreases |run|
  {
    if run == [] then [] else Announces(c, run[0]) + Delays(Step(c, run[0]), run[1..])
  }

  // At most one thing is under way; a timer only with a client that is closed or
  // closing; and once retries are given up, a timer that is left finds no client
  // to reconnect.
  predicate Inv(c: Client) {
    && (c.link == Dialing ==> c.con == Opening || c.con == Closing)
    && (c.link == Up ==> c.con == Opened || c.con == Closing)
    && (c.con == Opened ==> c.link == Up)
    && (c.con == Closed ==> c.link == Idle && c.dials == 0)
    && (c.armed || c.due ==> c.link == Idle && c.dials == 0 && (c.con == Closed || c.con == Closing))
    && !(c.armed && c.due)
    && c.dials <= 1 && (c.dials > 0 ==> c.link == Idle && (c.con == Opening || c.con == Closing))
    && (c.con == Closing ==> c.abort)
    && (c.abort && (c.armed || c.due) ==> c.con == Closing)
    && (!c.thread ==>
          c.con != Opening && c.con != Opened && c.link == Idle && c.dials == 0 && !c.armed && !c.due)
    && c.delay <= c.delayMax
  }

  lemma {:induction false} StepKeeps(c: Client, e: Event)
    requires Inv(c) && Enabled(c, e)
    ensures Inv(Step(c, e))
  {
    hide Inv, Enabled;
    match e
    case UserConnects => ConnectKeeps(c);
    case UserCloses => CloseKeeps(c);
    case DialRuns(starts) => DialKeeps(c, starts);
    case CloseRuns => CloseRunKeeps(c);
    case Expires => TimerKeeps(c);
    case Handled => TimerKeeps(c);
    case Failed => FailKeeps(c);
    case Opens => OpenKeeps(c);
    case Dropped(normal) => DropKeeps(c, normal);
    case PolicyClose => CloseKeeps(c);
    case AttemptsSet(n) => SettersKeep(c, n);
    case DelaySet(n) => SettersKeep(c, n);
    case DelayMaxSet(n) => SettersKeep(c, n);
  }

  lemma {:induction false} ConnectKeeps(c: Client)
    requires Inv(c) && Enabled(c, UserConnects)
    ensures Inv(Connect(c))
  {
  }

  lemma {:induction false} CloseKeeps(c: Client)
    requires Inv(c)
    ensures Inv(Close(c)) && Inv(c.(closes := c.closes + 1))
  {
  }

  lemma {:induction false} DialKeeps(c: Client, starts: bool)
    requires Inv(c) && Enabled(c, DialRuns(starts))
    ensures Inv(ConnectImpl(c, starts))
  {
  }

  lemma {:induction false} CloseRunKeeps(c: Client)
    requires Inv(c)
    ensures Inv(CloseImpl(c))
  {
  }

  lemma {:induction false} TimerKeeps(c: Client)
    requires Inv(c)
    ensures Inv(TimerExpires(c)) && Inv(TimeoutReconnect(c))
  {
  }

  lemma {:induction false} FailKeeps(c: Client)
    requires Inv(c) && Enabled(c, Failed)
    ensures Inv(OnFail(c))
  {
  }

  lemma {:induction false} OpenKeeps(c: Client)
    requires Inv(c) && Enabled(c, Opens)
    ensures Inv(OnOpen(c))
  {
  }

  lemma {:induction false} DropKeeps(c: Client, normal: bool)
    requires Inv(c) && Enabled(c, Dropped(normal))
    ensures Inv(OnClose(c, normal))
  {
  }

  lemma {:induction false} SettersKeep(c: Client, n: nat)
    requires Inv(c)
    ensures Inv(SetAttempts(c, n)) && Inv(SetDelay(c, n)) && Inv(SetDelayMax(c, n))
  {
  }

  lemma {:induction false} RunKeeps(c: Client, run: seq<Event>)
    requires Inv(c) && Possible(c, run)
    ensures Inv(Run(c, run))
    decreases |run|
  {
    hide Inv, Step, Enabled;
    if run != [] {
      StepKeeps(c, run[0]);
      RunKeeps(Step(c, run[0]), run[1..]);
    }
  }

  // From the time that retries are given up no attempt starts, whatever happens,
  // until the user connects again.
  lemma {:induction false} NoAttemptWhileAborted(c: Client, run: seq<Event>)
    requires Inv(c) && c.abort && Possible(c, run) && UserConnects !in run
    ensures Attempts(c, run) == 0 && Run(c, run).abort
    decreases |run|
  {
    hide Step, Inv, Enabled;
    if run != [] {
      StepKeeps(c, run[0]);
      AbortStays(c, run[0]);
      NoAttemptWhileAborted(Step(c, run[0]), run[1..]);
    }
  }

  lemma {:induction false} AbortStays(c: Client, e: Event)
    requires Inv(c) && c.abort && e != UserConnects
    ensures Step(c, e).abort && !IsAttempt(c, e)
  {
  }

  // After close, in whatever state it was called, no reconnect attempt starts
  // before the next connect.
  lemma {:induction false} NoAttemptAfterClose(before: seq<Event>, run: seq<Event>)
    requires Possible(Initial(), before)
    requires Possible(Close(Run(Initial(), before)), run) && UserConnects !in run
    ensures Attempts(Close(Run(Initial(), before)), run) == 0
  {
    hide Step, Run, Possible;
    RunKeeps(Initial(), before);
    StepKeeps(Run(Initial(), before), UserCloses);
    CloseIsStep(Run(Initial(), before));
    NoAttemptWhileAborted(Close(Run(Initial(), before)), run);
  }

  lemma {:induction false} CloseIsStep(c: Client)
    ensures Step(c, UserCloses) == Close(c)
  {
  }

  // The counter is within the limit, and a timer is only set below it.
  predicate Limited(c: Client) { c.made <= c.attempts && (c.armed || c.due ==> c.made < c.attempts) }

  lemma {:induction false} StepLimited(c: Client, e: Event)
    requires Inv(c) && Limited(c) && Enabled(c, e) && !e.AttemptsSet?
    ensures Limited(Step(c, e)) && Step(c, e).attempts == c.attempts
  {
  }

  // The steps that set the counter back: a connection opens for a client that is
  // not closing, or the user connects one that is neither open nor opening.
  predicate Resets(c: Client, e: Event) {
    || (e == Opens && c.con != Closing)
    || (e == UserConnects && !(c.thread && (c.con == Opening || c.con == Opened)))
  }

  predicate NeverResets(c: Client, run: seq<Event>)
    decreases |run|
  {
    run == [] || (!Resets(c, run[0]) && NeverResets(Step(c, run[0]), run[1..]))
  }

  // A counter that is not reset counts the attempts.
  lemma {:induction false} StepCounts(c: Client, e: Event)
    requires !Resets(c, e)
    ensures Step(c, e).made == c.made + if IsAttempt(c, e) then 1 else 0
  {
    hide Retries;
    match e
    case UserConnects =>
    case Handled =>
    case Failed =>
    case Opens =>
    case Dropped(_) =>
    case _ =>
  }

  lemma {:induction false} AttemptsAreCounted(c: Client, run: seq<Event>)
    requires Inv(c) && Limited(c) && Possible(c, run)
    requires NeverResets(c, run) && forall e <- run :: !e.AttemptsSet?
    ensures c.made + Attempts(c, run) == Run(c, run).made <= c.attempts
    decreases |run|
  {
    hide Step, Inv, Enabled, IsAttempt, Resets, Limited;
    if run == [] {
      LimitedMeans(c);
    } else {
      StepKeeps(c, run[0]);
      StepLimited(c, run[0]);
      StepCounts(c, run[0]);
      AttemptsAreCounted(Step(c, run[0]), run[1..]);
    }
  }

  lemma {:induction false} LimitedMeans(c: Client)
    requires Limited(c)
    ensures c.made <= c.attempts
  {
  }

  // With a fixed limit, from the moment the counter is reset, no more attempts
  // are made than the limit says before it is reset again.
  lemma {:induction false} AttemptsBounded(c: Client, start: Event, run: seq<Event>)
    requires Inv(c) && Enabled(c, start)
    requires Resets(c, start) && Possible(Step(c, start), run)
    requires NeverResets(Step(c, start), run) && forall e <- run :: !e.AttemptsSet?
    ensures Attempts(Step(c, start), run) <= c.attempts
  {
    hide Attempts, Run, Possible;
    StepKeeps(c, start);
    AttemptsAreCounted(Step(c, start), run);
  }

  // No delay is below one of the same settings that was due earlier.
  lemma {:induction false} DelaysNeverFall(c: Client, run: seq<Event>)
    requires NeverResets(c, run) && forall e <- run :: !e.DelaySet? && !e.DelayMaxSet?
    ensures forall d <- Delays(c, run) :: NextDelay(c.made, c.delay, c.delayMax) <= d <= c.delayMax
    ensures forall i, j :: 0 <= i < j < |Delays(c, run)| ==> Delays(c, run)[i] <= Delays(c, run)[j]
    decreases |run|
  {
    hide NextDelay, Step, Announces, Resets;
    if run != [] {
      var d := Step(c, run[0]);
      StepCounts(c, run[0]);
      DelaysNeverFall(d, run[1..]);
      SettingsStay(c, run[0]);
      DelayGrows(c.made, d.made, c.delay, c.delayMax);
      DelayGrows(c.made, c.made, c.delay, c.delayMax);
      AnnouncedDelay(c, run[0]);
      var first, rest := Announces(c, run[0]), Delays(d, run[1..]);
      var all := first + rest;
      forall x <- all
        ensures NextDelay(c.made, c.delay, c.delayMax) <= x <= c.delayMax
      {
      }
      forall i, j | 0 <= i < j < |all|
        ensures all[i] <= all[j]
      {
        if i < |first| {
          assert all[i] == NextDelay(c.made, c.delay, c.delayMax);
          assert all[j] == rest[j - |first|] && rest[j - |first|] in rest;
        } else {
          assert all[i] == rest[i - |first|] && all[j] == rest[j - |first|];
        }
      }
    }
  }

  lemma {:induction false} SettingsStay(c: Client, e: Event)
    requires !e.DelaySet? && !e.DelayMaxSet?
    ensures Step(c, e).delay == c.delay && Step(c, e).delayMax == c.delayMax
  {
    hide Retries;
    match e
    case UserConnects =>
    case Failed =>
    case Opens =>
    case Dropped(_) =>
    case _ =>
  }

  lemma {:induction false} AnnouncedDelay(c: Client, e: Event)
    ensures Announces(c, e) == [] || Announces(c, e) == [NextDelay(c.made, c.delay, c.delayMax)]
  {
  }

  lemma {:induction false} DelaysBetween(c: Client, run: seq<Event>)
    requires c.delay <= c.delayMax && forall e <- run :: !e.DelaySet? && !e.DelayMaxSet?
    ensures forall d <- Delays(c, run) :: c.delay <= d <= c.delayMax
    decreases |run|
  {
    hide NextDelay, Step, Announces;
    if run != [] {
      AnnouncedDelay(c, run[0]);
      DelayGrows(0, c.made, c.delay, c.delayMax);
      SettingsStay(c, run[0]);
      DelaysBetween(Step(c, run[0]), run[1..]);
    }
  }

  // Whatever setters were called before, a client's delay does not exceed its
  // maximum, so that every announced delay lies between the two settings.
  lemma {:induction false} DelaysWithinSettings(before: seq<Event>, run: seq<Event>)
    requires Possible(Initial(), before) && forall e <- run :: !e.DelaySet? && !e.DelayMaxSet?
    ensures var c := Run(Initial(), before);
            c.delay <= c.delayMax && forall d <- Delays(c, run) :: c.delay <= d <= c.delayMax
  {
    hide Step, Run, Delays, Possible;
    RunKeeps(Initial(), before);
    DelaysBetween(Run(Initial(), before), run);
  }
}
