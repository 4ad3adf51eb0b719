// What the client does when things go wrong and when they go well: when it sets
// its timer, how long it waits, how often it tries, and how it comes back.

module SioReconnect {
  import opened SioClient

  /* The delay */

  // One and a half to the power of n.
  function Growth(n: nat): (r: real)
    ensures r >= 1.0
  {
    if n == 0 then 1.0 else 1.5 * Growth(n - 1)
  }

  lemma {:induction false} GrowthIsRatio(n: nat)
    ensures Growth(n) * (Pow(2, n) as real) == Pow(3, n) as real
    decreases n
  {
    if n > 0 {
      GrowthIsRatio(n - 1);
      var g, p := Growth(n - 1), Pow(2, n - 1) as real;
      assert Pow(2, n) as real == 2.0 * p && Pow(3, n) as real == 3.0 * (Pow(3, n - 1) as real);
      Regroup(g, p);
    }
  }

  lemma {:induction false} Regroup(g: real, p: real)
    ensures (1.5 * g) * (2.0 * p) == 3.0 * (g * p)
  {
  }

  // Dividing whole numbers is cutting off the quotient.
  lemma {:induction false} QuotientFloors(a: nat, b: nat, x: real)
    requires b > 0 && x * (b as real) == a as real
    ensures x.Floor == a / b
  {
    var q, r := a / b, a % b;
    assert a == q * b + r;
    var d := b as real;
    assert a as real == (q as real) * d + (r as real);
    assert 0.0 <= r as real < d;
    Between(x, q as real, d, r as real);
  }

  lemma {:induction false} Between(x: real, q: real, d: real, r: real)
    requires d > 0.0 && x * d == q * d + r && 0.0 <= r < d
    ensures q <= x < q + 1.0
  {
    var y := x - q;
    assert y * d == r;
    if y < 0.0 { Negative(y, d); }
    if y >= 1.0 { Large(y, d); }
  }

  lemma {:induction false} Negative(y: real, d: real)
    requires y < 0.0 && d > 0.0
    ensures y * d < 0.0
  {
  }

  lemma {:induction false} Large(y: real, d: real)
    requires y >= 1.0 && d > 0.0
    ensures y * d >= d
  {
    assert (y - 1.0) * d >= 0.0;
  }

  // The delay before attempt number made + 1: the first delay times one and a
  // half for each attempt made, of which at most 32 count, in whole milliseconds
  // and up to the maximum.
  lemma {:induction false} DelayExactly(made: nat, delay: nat, delayMax: nat)
    ensures var x := ((delay as real) * Growth(if made < 32 then made else 32)).Floor;
            NextDelay(made, delay, delayMax) == if x < delayMax then x else delayMax
  {
    hide Pow, Growth;
    var n := if made < 32 then made else 32;
    GrowthIsRatio(n);
    Scales(delay, Growth(n), Pow(2, n), Pow(3, n));
    QuotientFloors(delay * Pow(3, n), Pow(2, n), (delay as real) * Growth(n));
  }

  lemma {:induction false} Scales(delay: nat, g: real, root: nat, power: nat)
    requires g * (root as real) == power as real
    ensures ((delay as real) * g) * (root as real) == (delay * power) as real
  {
    Associates(delay as real, g, root as real);
    Casts(delay, power);
  }

  lemma {:induction false} Casts(a: nat, b: nat)
    ensures (a * b) as real == (a as real) * (b as real)
  {
  }

  lemma {:induction false} Associates(a: real, b: real, c: real)
    ensures (a * b) * c == a * (b * c)
  {
  }

  /* When the connection is lost */

  // A client that is not closing is closed by a failed dial or a connection that
  // ends against its will. It sets the timer, and announces one delay, exactly if
  // attempts are left and the user has not closed it.
  lemma {:induction false} LostSetsTimer(c: Client, e: Event)
    requires Inv(c) && Enabled(c, e) && (e == Failed || e == Dropped(false)) && c.con != Closing
    ensures var d := Step(c, e);
            && d.con == Closed && d.link == Idle && !d.session && d.made == c.made && d.abort == c.abort
            && (d.armed <==> c.made < c.attempts && !c.abort)
            && Announces(c, e) == (if d.armed then [NextDelay(c.made, c.delay, c.delayMax)] else [])
  {
  }

  // A connection that ends as it should, or while closing, sets no timer; a dial
  // that fails or opens while closing is closed again.
  lemma {:induction false} EndsQuietly(c: Client, e: Event)
    requires Inv(c) && Enabled(c, e)
    requires e == Dropped(true) || (c.con == Closing && (e == Failed || e == Opens || e.Dropped?))
    ensures var d := Step(c, e);
            && !d.armed && Announces(c, e) == []
            && (if e.Dropped? then d.con == Closed && d.link == Idle && !d.session
                else d.con == Closing && d.abort && d.closes == c.closes + 1)
  {
  }

  /* Single events */

  // Connecting starts anew: a dial, no attempt made, retries allowed; a client that
  // is open or opening is left as it is.
  lemma {:induction false} ConnectDials(c: Client)
    requires Inv(c) && Enabled(c, UserConnects)
    ensures var d := Step(c, UserConnects);
            if c.thread && (c.con == Opening || c.con == Opened) then d == c.(armed := false)
            else
              d.con == Opening && d.dials == 1 && d.made == 0 && !d.abort && !d.armed && d.thread
              && d.attempts == c.attempts && d.delay == c.delay && d.delayMax == c.delayMax
  {
  }

  // The timer leads to an attempt if and only if the client is closed.
  lemma {:induction false} TimerAttempts(c: Client)
    requires Inv(c) && c.armed
    ensures var d := Step(Step(c, Expires), Handled);
            !d.armed && !d.due
            && (if c.con == Closed then d.con == Opening && d.made == c.made + 1 && d.dials == 1
                else d == c.(armed := false))
  {
  }

  // An opened connection sets the counter back.
  lemma {:induction false} OpensResets(c: Client)
    requires Inv(c) && Enabled(c, Opens) && c.con != Closing
    ensures Step(c, Opens) == c.(con := Opened, link := Up, session := true, made := 0)
  {
  }

  // Each setting is what was set; the other delay follows only if it must.
  lemma {:induction false} SettersSet(c: Client, n: nat)
    requires Inv(c)
    ensures Step(c, AttemptsSet(n)) == c.(attempts := n)
    ensures var d := Step(c, DelaySet(n));
            d.delay == n && d.delayMax == (if n > c.delayMax then n else c.delayMax) && d.made == c.made
    ensures var d := Step(c, DelayMaxSet(n));
            d.delayMax == n && d.delay == (if n < c.delay then n else c.delay) && d.made == c.made
  {
  }

  // Closing stops the timer, and a client with nothing else under way can be
  // connected again. A close for a ping that is not answered leaves all else to the
  // connection.
  lemma {:induction false} CloseStopsTimer(c: Client)
    requires Inv(c)
    ensures var d := Step(Step(c, UserCloses), CloseRuns);
            && d == c.(con := Closing, abort := true, armed := false)
            && (c.link == Idle && c.dials == 0 && c.closes == 0 && !c.due ==> Enabled(d, UserConnects))
    ensures Enabled(c, PolicyClose) ==>
              Enabled(Step(c, PolicyClose), CloseRuns) && Step(Step(c, PolicyClose), CloseRuns) == c
  {
  }

  // Where a dial that could not even start leaves a client: opening, with nothing
  // under way.
  predicate Stuck(c: Client) {
    c.con == Opening && c.link == Idle && c.dials == 0 && !c.armed && !c.due && c.thread
  }

  /* Runs */

  lemma {:induction false} RunStep(c: Client, e: Event, run: seq<Event>)
    ensures Run(c, [e] + run) == Run(Step(c, e), run)
    ensures Possible(c, [e] + run) == (Enabled(c, e) && Possible(Step(c, e), run))
    ensures Attempts(c, [e] + run) == (if IsAttempt(c, e) then 1 else 0) + Attempts(Step(c, e), run)
    ensures Delays(c, [e] + run) == Announces(c, e) + Delays(Step(c, e), run)
  {
    hide Step, Enabled, Announces, IsAttempt;
    assert ([e] + run)[0] == e && ([e] + run)[1..] == run;
  }

  lemma {:induction false} RunNothing(c: Client)
    ensures Run(c, []) == c && Possible(c, []) && Attempts(c, []) == 0 && Delays(c, []) == []
  {
  }

  // A client that loses an open connection comes back by itself, with one attempt.
  lemma {:induction false} ComesBack(c: Client) returns (run: seq<Event>)
    requires Inv(c) && c.con == Opened && c.made < c.attempts && !c.abort
    ensures Possible(c, run) && UserConnects !in run && Attempts(c, run) == 1
    ensures Delays(c, run) == [NextDelay(c.made, c.delay, c.delayMax)]
    ensures var d := Run(c, run); d.con == Opened && d.link == Up && d.session && d.made == 0
  {
    hide NextDelay;
    var c1 := Step(c, Dropped(false));
    var c2 := Step(c1, Expires);
    var c3 := Step(c2, Handled);
    var c4 := Step(c3, DialRuns(true));
    var c5 := Step(c4, Opens);
    RunNothing(c5);
    RunStep(c4, Opens, []);
    RunStep(c3, DialRuns(true), [Opens]);
    RunStep(c2, Handled, [DialRuns(true)] + [Opens]);
    RunStep(c1, Expires, [Handled] + ([DialRuns(true)] + [Opens]));
    run := [Expires] + ([Handled] + ([DialRuns(true)] + [Opens]));
    RunStep(c, Dropped(false), run);
    run := [Dropped(false)] + run;
  }

  // What can still happen when no dial ever opens and nobody interferes.
  predicate Fails(e: Event) { e == DialRuns(true) || e == Failed || e == Expires || e == Handled }

  // Where a client may stand then, with attempts made so far: at a dial, dialling,
  // waiting, about to try again, or out of attempts.
  predicate Failing(c: Client, limit: nat, tried: nat) {
    && c.attempts == limit && c.made == tried <= limit && !c.abort && c.thread && !(c.armed && c.due)
    && (|| (c.con == Opening && c.dials == 1 && c.link == Idle && !c.armed && !c.due)
        || (c.con == Opening && c.dials == 0 && c.link == Dialing && !c.armed && !c.due)
        || (c.con == Closed && c.dials == 0 && c.link == Idle && (c.armed || c.due) && tried < limit)
        || (c.con == Closed && c.dials == 0 && c.link == Idle && !c.armed && !c.due && tried == limit))
  }

  lemma {:induction false} FailingStep(c: Client, limit: nat, tried: nat, e: Event)
    requires Failing(c, limit, tried) && Fails(e) && Enabled(c, e)
    ensures Failing(Step(c, e), limit, tried + if IsAttempt(c, e) then 1 else 0)
    ensures Step(c, e).con == Closed && !Step(c, e).armed && !Step(c, e).due ==> tried == limit
  {
  }

  lemma {:induction false} FailingRuns(c: Client, limit: nat, tried: nat, run: seq<Event>)
    requires Failing(c, limit, tried) && Possible(c, run) && forall e <- run :: Fails(e)
    ensures Failing(Run(c, run), limit, tried + Attempts(c, run))
    decreases |run|
  {
    hide Step, Enabled, Failing, Fails, IsAttempt;
    if run != [] {
      assert run[0] in run && forall e <- run[1..] :: e in run;
      FailingStep(c, limit, tried, run[0]);
      FailingRuns(Step(c, run[0]), limit, tried + if IsAttempt(c, run[0]) then 1 else 0, run[1..]);
    }
  }

  // From a connect on, with a limit of so many attempts: in every run in which all
  // dials fail no more attempts are made than that; as long as fewer were made
  // something is still to come; and when nothing is, the client is closed, its
  // timer is off and exactly as many were made.
  lemma {:induction false} TriesExactly(c: Client, run: seq<Event>)
    requires Inv(c) && Enabled(c, UserConnects) && !(c.thread && (c.con == Opening || c.con == Opened))
    requires Possible(Step(c, UserConnects), run) && forall e <- run :: Fails(e)
    ensures var b := Step(c, UserConnects);
            var d, tried := Run(b, run), Attempts(b, run);
            && tried <= c.attempts
            && ((forall e :: Fails(e) ==> !Enabled(d, e)) <==> d.con == Closed && !d.armed && !d.due)
            && (d.con == Closed && !d.armed && !d.due ==> tried == c.attempts)
  {
    hide Possible, Run, Attempts;
    FailingRuns(Step(c, UserConnects), c.attempts, 0, run);
    var d := Run(Step(c, UserConnects), run);
    SomethingToCome(d, c.attempts, Attempts(Step(c, UserConnects), run));
  }

  lemma {:induction false} SomethingToCome(d: Client, limit: nat, tried: nat)
    requires Failing(d, limit, tried)
    ensures (forall e :: Fails(e) ==> !Enabled(d, e)) <==> d.con == Closed && !d.armed && !d.due
    ensures d.con == Closed && !d.armed && !d.due ==> tried == limit
  {
    if !(d.con == Closed && !d.armed && !d.due) {
      var e := if d.dials > 0 then DialRuns(true) else if d.link == Dialing then Failed
               else if d.armed then Expires else Handled;
      assert Fails(e) && Enabled(d, e);
    }
  }

  // And the longest such run exists: every attempt can be made, one after the other.
  lemma {:induction false} TriesToTheEnd(c: Client, tried: nat) returns (run: seq<Event>)
    requires Failing(c, c.attempts, tried) && c.dials == 1
    ensures Possible(c, run) && (forall e <- run :: Fails(e)) && tried + Attempts(c, run) == c.attempts
    ensures var d := Run(c, run); d.con == Closed && !d.armed && !d.due
    decreases c.attempts - tried
  {
    hide NextDelay;
    var c1 := Step(c, DialRuns(true));
    var c2 := Step(c1, Failed);
    if tried == c.attempts {
      RunNothing(c2);
      RunStep(c1, Failed, []);
      run := [Failed];
    } else {
      var c3 := Step(c2, Expires);
      var c4 := Step(c3, Handled);
      var rest := TriesToTheEnd(c4, tried + 1);
      RunStep(c3, Handled, rest);
      RunStep(c2, Expires, [Handled] + rest);
      RunStep(c1, Failed, [Expires] + ([Handled] + rest));
      run := [Failed] + ([Expires] + ([Handled] + rest));
    }
    RunStep(c, DialRuns(true), run);
    run := [DialRuns(true)] + run;
  }

  lemma {:induction false} StuckStays(c: Client, e: Event)
    requires Stuck(c) && Enabled(c, e) && e != UserCloses
    ensures Stuck(Step(c, e)) && !IsAttempt(c, e) && Announces(c, e) == []
  {
  }

  // If a dial cannot start, nothing ever happens again unless the user closes the
  // client: whatever else is called, connecting included, it stays opening and makes
  // no attempt.
  lemma {:induction false} NeverStarts(c: Client, run: seq<Event>)
    requires Inv(c) && c.con == Opening && Enabled(c, DialRuns(false))
    requires Possible(Step(c, DialRuns(false)), run) && UserCloses !in run
    ensures var b := Step(c, DialRuns(false));
            Stuck(Run(b, run)) && Attempts(b, run) == 0 && Delays(b, run) == []
  {
    hide Possible, Run, Attempts, Delays;
    StuckRuns(Step(c, DialRuns(false)), run);
  }

  lemma {:induction false} StuckRuns(c: Client, run: seq<Event>)
    requires Stuck(c) && Possible(c, run) && UserCloses !in run
    ensures Stuck(Run(c, run)) && Attempts(c, run) == 0 && Delays(c, run) == []
    decreases |run|
  {
    hide Step, Enabled, Stuck, IsAttempt, Announces;
    if run != [] {
      assert run[0] in run && forall e <- run[1..] :: e in run;
      StuckStays(c, run[0]);
      StuckRuns(Step(c, run[0]), run[1..]);
    }
  }

  // Closing it first helps: the next connect dials.
  lemma {:induction false} ClosedThenStarts(c: Client)
    requires Stuck(c) && c.closes == 0
    ensures Possible(c, [UserCloses, CloseRuns, UserConnects])
    ensures var d := Run(c, [UserCloses, CloseRuns, UserConnects]); d.con == Opening && d.dials == 1 && d.link == Idle
  {
    var c1 := Step(c, UserCloses);
    var c2 := Step(c1, CloseRuns);
    RunNothing(Step(c2, UserConnects));
    RunStep(c2, UserConnects, []);
    RunStep(c1, CloseRuns, [UserConnects]);
    RunStep(c, UserCloses, [CloseRuns, UserConnects]);
    assert [UserConnects] + [] == [UserConnects] && [CloseRuns] + [UserConnects] == [CloseRuns, UserConnects];
    assert [UserCloses] + [CloseRuns, UserConnects] == [UserCloses, CloseRuns, UserConnects];
  }

  // A client of which no setting was changed waits five seconds first, and never
  // longer than twenty-five.
  lemma {:induction false} DelaysByDefault(run: seq<Event>)
    requires Possible(Initial(), run) && forall e <- run :: !e.DelaySet? && !e.DelayMaxSet?
    ensures forall d <- Delays(Initial(), run) :: 5000 <= d <= 25000
    ensures NextDelay(0, Run(Initial(), run).delay, Run(Initial(), run).delayMax) == 5000
  {
    hide Step, Run, Delays, Possible, NextDelay;
    RunNothing(Initial());
    DelaysWithinSettings([], run);
    SettingsKept(Initial(), run);
    DelayGrows(0, 0, 5000, 25000);
  }

  lemma {:induction false} SettingsKept(c: Client, run: seq<Event>)
    requires forall e <- run :: !e.DelaySet? && !e.DelayMaxSet?
    ensures Run(c, run).delay == c.delay && Run(c, run).delayMax == c.delayMax
    decreases |run|
  {
    hide Step;
    if run != [] {
      assert run[0] in run && forall e <- run[1..] :: e in run;
      SettingsStay(c, run[0]);
      SettingsKept(Step(c, run[0]), run[1..]);
    }
  }
}
