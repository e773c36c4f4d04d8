/** The live run loop (gryphon/execution/live_runner.py:56-75, 89-99, 171-220, 223-317) against any environment:
    every call out may succeed, raise, be interrupted by a signal, or be the one that kills the process. */
module LiveRunner {
  import Numerals

  datatype Result = Fine | AuditException | OtherException | SystemExit | Killed

  /** Subclasses of Exception. */
  predicate Catchable(r: Result) { r == AuditException || r == OtherException }

  /** What one call out does: its result, whether a shutdown signal arrives during it, and, where it is asked,
      a yes or no and a number of seconds. */
  datatype Reply = Reply(result: Result, signal: bool, yes: bool, seconds: nat)

  datatype Event = Signal | AuditPassed | Caught | TurnStarted | TickStarted | SawFlag | WarmShutdown

  // ---- reading a log ----

  /** Audited, and no exception caught since. */
  function Audited(log: seq<Event>): bool {
    log != [] &&
    match log[|log| - 1]
    case AuditPassed => true
    case Caught => false
    case _ => Audited(log[..|log| - 1])
  }

  /** Ticks started since the last passed audit. */
  function TicksSince(log: seq<Event>): nat {
    if log == [] then 0 else
      match log[|log| - 1]
      case AuditPassed => 0
      case TickStarted => TicksSince(log[..|log| - 1]) + 1
      case _ => TicksSince(log[..|log| - 1])
  }

  function Ticks(log: seq<Event>): nat {
    if log == [] then 0 else Ticks(log[..|log| - 1]) + if log[|log| - 1] == TickStarted then 1 else 0
  }

  /** Ticks started after the first shutdown signal. */
  function LateTicks(log: seq<Event>): nat {
    if log == [] then 0
    else LateTicks(log[..|log| - 1])
         + if log[|log| - 1] == TickStarted && Signal in log[..|log| - 1] then 1 else 0
  }

  function Shutdowns(log: seq<Event>): nat {
    if log == [] then 0 else Shutdowns(log[..|log| - 1]) + if log[|log| - 1] == WarmShutdown then 1 else 0
  }

  function Magnitude(n: int): nat { if n < 0 then -n else n }

  /** The most ticks between audits; an audit_tick of zero still lets the first one through. */
  function MostTicks(auditTick: int): nat { if auditTick == 0 then 1 else Magnitude(auditTick) }

  /** Each tick starts audited and within the bound. */
  ghost predicate TicksAreAudited(log: seq<Event>, auditTick: int) {
    forall i :: 0 <= i < |log| && log[i] == TickStarted ==>
      Audited(log[..i]) && TicksSince(log[..i]) < MostTicks(auditTick)
  }

  /** Once the flag was seen or the shutdown began, no tick starts. */
  ghost predicate StopsWhenSeen(log: seq<Event>) {
    forall i, j :: 0 <= i < j < |log| && (log[i] == SawFlag || log[i] == WarmShutdown) ==> log[j] != TickStarted
  }

  // ---- the schedule ----

  function Turns(log: seq<Event>): nat {
    if log == [] then 0 else Turns(log[..|log| - 1]) + if log[|log| - 1] == TurnStarted then 1 else 0
  }

  function Audits(log: seq<Event>): nat {
    if log == [] then 0 else Audits(log[..|log| - 1]) + if log[|log| - 1] == AuditPassed then 1 else 0
  }

  /** What the turn at hand has done so far; signals come from outside. */
  function Work(log: seq<Event>): seq<Event> {
    if log == [] then [] else
      match log[|log| - 1]
      case TurnStarted => []
      case Signal => Work(log[..|log| - 1])
      case e => Work(log[..|log| - 1]) + [e]
  }

  /** What turn i does if nothing goes wrong: the first one audits and ticks, every audit_tick-th audits, the others
      tick. */
  function TurnWork(audit: bool, auditTick: int, i: nat): seq<Event> {
    if !audit then [TickStarted]
    else if i == 0 then [AuditPassed, TickStarted]
    else if auditTick != 0 && AuditDue(i, auditTick) then [AuditPassed]
    else [TickStarted]
  }

  /** The turn did its work, or an exception was caught in it. */
  predicate TurnDone(log: seq<Event>, audit: bool, auditTick: int, i: nat) {
    Caught in Work(log) || Work(log) == TurnWork(audit, auditTick, i)
  }

  /** A tick comes where its turn has one, after the audit if there is one to come first. */
  predicate TickIsDue(log: seq<Event>, audit: bool, auditTick: int) {
    Turns(log) > 0 && Work(log) + [TickStarted] == TurnWork(audit, auditTick, Turns(log) - 1)
  }

  /** An event may follow: a turn starts when the one before did its work or caught an exception, and a tick does not
      come out of turn. */
  predicate Follows(log: seq<Event>, e: Event, audit: bool, auditTick: int) {
    && (e == TurnStarted && Turns(log) > 0 ==> TurnDone(log, audit, auditTick, Turns(log) - 1))
    && (e == TickStarted ==> TickIsDue(log, audit, auditTick))
  }

  ghost predicate OnSchedule(log: seq<Event>, audit: bool, auditTick: int) {
    forall p :: 0 <= p < |log| ==> Follows(log[..p], log[p], audit, auditTick)
  }

  lemma NextScheduled(log: seq<Event>, e: Event, audit: bool, auditTick: int)
    requires OnSchedule(log, audit, auditTick) && Follows(log, e, audit, auditTick)
    ensures OnSchedule(log + [e], audit, auditTick)
  {
    hide Follows;
    assert (log + [e])[..|log|] == log;
    forall p | 0 <= p < |log| ensures (log + [e])[..p] == log[..p] {}
  }

  lemma NextWork(log: seq<Event>, e: Event)
    ensures Turns(log + [e]) == Turns(log) + if e == TurnStarted then 1 else 0
    ensures Work(log + [e]) == if e == TurnStarted then [] else if e == Signal then Work(log) else Work(log) + [e]
  {
    assert (log + [e])[..|log|] == log;
  }

  /** The log of so many turns in which nothing goes wrong. */
  function Schedule(audit: bool, auditTick: int, n: nat): seq<Event> {
    if n == 0 then []
    else Schedule(audit, auditTick, n - 1) + ([TurnStarted] + TurnWork(audit, auditTick, n - 1))
  }

  lemma CountsAppend(a: seq<Event>, b: seq<Event>)
    ensures Ticks(a + b) == Ticks(a) + Ticks(b) && Audits(a + b) == Audits(a) + Audits(b)
    decreases |b|
  {
    if b == [] {
      assert a + b == a;
    } else {
      assert (a + b)[..|a + b| - 1] == a + b[..|b| - 1];
      CountsAppend(a, b[..|b| - 1]);
    }
  }

  lemma OneEvent(e: Event)
    ensures Ticks([e]) == (if e == TickStarted then 1 else 0) && Audits([e]) == if e == AuditPassed then 1 else 0
  {
    assert [e][..0] == [];
  }

  lemma TurnCounts(audit: bool, auditTick: int, i: nat)
    ensures var w := [TurnStarted] + TurnWork(audit, auditTick, i);
            var due := auditTick != 0 && AuditDue(i, auditTick);
      && Ticks(w) == (if audit && due then 0 else 1)
      && Audits(w) == (if audit && (i == 0 || due) then 1 else 0)
  {
    CountsAppend([TurnStarted], TurnWork(audit, auditTick, i));
    OneEvent(TurnStarted);
    OneEvent(AuditPassed);
    OneEvent(TickStarted);
    assert [AuditPassed, TickStarted] == [AuditPassed] + [TickStarted];
    CountsAppend([AuditPassed], [TickStarted]);
    hide Ticks;
    hide Audits;
  }

  /** How many whole audit_ticks there are in a number of turns. */
  function Rounds(turns: nat, auditTick: int): nat
    requires auditTick != 0
  {
    turns / Magnitude(auditTick)
  }

  lemma NextRound(k: nat, auditTick: int)
    requires auditTick != 0 && k > 0
    ensures Rounds(k, auditTick) == Rounds(k - 1, auditTick) + if AuditDue(k, auditTick) then 1 else 0
  {
    var a := Magnitude(auditTick);
    var q, r := k / a, k % a;
    assert k == q * a + r;
    if r == 0 {
      assert k - 1 == (q - 1) * a + (a - 1);
      Numerals.QuotientUnique(k - 1, a, q - 1, a - 1);
    } else {
      Numerals.QuotientUnique(k - 1, a, q, r - 1);
    }
  }

  lemma NoRounds(auditTick: int)
    requires auditTick != 0
    ensures Rounds(0, auditTick) == 0 && !AuditDue(0, auditTick)
  {
    Numerals.QuotientUnique(0, Magnitude(auditTick), 0, 0);
  }

  /** How often n such turns tick and audit: with auditing, one audit at the start and one each audit_tick turns after
      it, every other turn and the first one ticking; without, every turn ticks. */
  lemma {:induction false} ScheduleCounts(audit: bool, auditTick: int, n: nat)
    requires n > 0 && (audit ==> auditTick != 0)
    ensures var s := Schedule(audit, auditTick, n);
      if audit then
        var due := (n - 1) / Magnitude(auditTick);
        Ticks(s) == n - due && Audits(s) == 1 + due
      else Ticks(s) == n && Audits(s) == 0
  {
    CountsInRounds(audit, auditTick, n);
  }

  lemma {:induction false} CountsInRounds(audit: bool, auditTick: int, n: nat)
    requires n > 0 && (audit ==> auditTick != 0)
    ensures var s := Schedule(audit, auditTick, n);
      && Ticks(s) == n - (if audit then Rounds(n - 1, auditTick) else 0)
      && Audits(s) == if audit then 1 + Rounds(n - 1, auditTick) else 0
  {
    hide Rounds;
    hide AuditDue;
    hide TurnWork;
    var w := [TurnStarted] + TurnWork(audit, auditTick, n - 1);
    CountsAppend(Schedule(audit, auditTick, n - 1), w);
    TurnCounts(audit, auditTick, n - 1);
    if audit { NoRounds(auditTick); }
    if n == 1 {
      assert Schedule(audit, auditTick, 0) == [] && Ticks([]) == 0 && Audits([]) == 0;
    } else {
      CountsInRounds(audit, auditTick, n - 1);
      if audit { NextRound(n - 1, auditTick); }
    }
    hide Ticks;
    hide Audits;
  }

  /** Nothing came from outside and nothing went wrong. */
  predicate Undisturbed(log: seq<Event>) { forall i :: 0 <= i < |log| ==> log[i] in {AuditPassed, TurnStarted, TickStarted} }

  /** In every run, as long as nothing disturbs it, the log at the start of a turn is exactly the schedule. */
  lemma {:induction false} UndisturbedIs(log: seq<Event>, audit: bool, auditTick: int, p: nat)
    requires OnSchedule(log, audit, auditTick) && p < |log| && log[p] == TurnStarted && Undisturbed(log[..p])
    requires log[0] == TurnStarted
    ensures log[..p] == Schedule(audit, auditTick, Turns(log[..p]))
    decreases p
  {
    hide TurnWork;
    hide Work;
    hide Turns;
    if p == 0 {
      NoTurns();
      assert log[..0] == [];
    } else {
      var q := LastTurn(log[..p]);
      assert log[..p][..q] == log[..q] && log[q] == TurnStarted;
      forall i | 0 <= i < q ensures log[..q][i] in {AuditPassed, TurnStarted, TickStarted} { assert log[..p][i] == log[i]; }
      UndisturbedIs(log, audit, auditTick, q);
      var k := Turns(log[..q]);
      assert Follows(log[..p], log[p], audit, auditTick);
      assert Work(log[..p]) == TurnWork(audit, auditTick, k);
      assert log[..p] == log[..q] + ([TurnStarted] + Work(log[..p]));
    }
  }

  lemma NoTurns()
    ensures Turns([]) == 0
  {
  }

  /** Where the last turn of an undisturbed log started; its work is all that follows. */
  lemma {:induction false} LastTurn(log: seq<Event>) returns (q: nat)
    requires Undisturbed(log) && log != [] && log[0] == TurnStarted
    ensures q < |log| && log[q] == TurnStarted && log == log[..q] + [TurnStarted] + Work(log)
    ensures Turns(log) == Turns(log[..q]) + 1 && Caught !in Work(log)
    decreases |log|
  {
    var n := |log| - 1;
    var front := log[..n];
    assert log == front + [log[n]];
    NextWork(front, log[n]);
    if log[n] == TurnStarted {
      q := n;
    } else {
      forall i | 0 <= i < |front| ensures front[i] in {AuditPassed, TurnStarted, TickStarted} { assert front[i] == log[i]; }
      q := LastTurn(front);
      assert front[..q] == log[..q];
    }
  }

  /** Audited means that an audit passed and no exception was caught after it. */
  lemma {:induction false} AuditedIs(log: seq<Event>)
    ensures Audited(log)
            <==> exists i :: 0 <= i < |log| && log[i] == AuditPassed && Caught !in log[i..]
  {
    if log != [] {
      var n := |log| - 1;
      AuditedIs(log[..n]);
      if log[n] == AuditPassed {
        assert Caught !in log[n..];
      } else {
        forall i | 0 <= i < n ensures log[i..] == log[..n][i..] + [log[n]] {}
      }
    }
  }

  /** What the two bounds count: the ticks after the last passed audit, and those after the first signal. */
  lemma {:induction false} TicksSinceIs(log: seq<Event>, i: nat)
    requires i <= |log| && (i > 0 ==> log[i - 1] == AuditPassed) && AuditPassed !in log[i..]
    ensures TicksSince(log) == Ticks(log[i..])
  {
    if i < |log| {
      var n := |log| - 1;
      assert log[i..] == log[..n][i..] + [log[n]];
      assert log[i..][..n - i] == log[..n][i..];
      assert log[n] in log[i..];
      TicksSinceIs(log[..n], i);
    }
  }

  lemma {:induction false} LateTicksIs(log: seq<Event>, i: nat)
    requires i <= |log| && Signal !in log[..i] && (i < |log| ==> log[i] == Signal)
    ensures LateTicks(log) == Ticks(log[i..])
  {
    if log != [] {
      var n := |log| - 1;
      if i <= n {
        assert log[i..] == log[..n][i..] + [log[n]];
        assert log[i..][..n - i] == log[..n][i..];
        if i < n { assert log[..n][i] == Signal; }
        assert log[..n][..i] == log[..i];
        LateTicksIs(log[..n], i);
      } else {
        assert log[..i] == log;
        assert log[..n][..n] == log[..n];
        LateTicksIs(log[..n], n);
      }
    }
  }

  /** A later log in which no tick has started and no shutdown begun. */
  predicate Quiet(before: seq<Event>, after: seq<Event>) {
    before <= after && forall i :: |before| <= i < |after| ==> after[i] in {Signal, AuditPassed, Caught}
  }

  lemma Appended(log: seq<Event>, e: Event, auditTick: int)
    ensures Audited(log + [e]) == (e == AuditPassed || (e != Caught && Audited(log)))
    ensures TicksSince(log + [e]) == if e == AuditPassed then 0 else TicksSince(log) + if e == TickStarted then 1 else 0
    ensures Ticks(log + [e]) == Ticks(log) + if e == TickStarted then 1 else 0
    ensures LateTicks(log + [e]) == LateTicks(log) + if e == TickStarted && Signal in log then 1 else 0
    ensures Shutdowns(log + [e]) == Shutdowns(log) + if e == WarmShutdown then 1 else 0
    ensures TicksAreAudited(log, auditTick)
            && (e == TickStarted ==> Audited(log) && TicksSince(log) < MostTicks(auditTick))
            ==> TicksAreAudited(log + [e], auditTick)
  {
    assert (log + [e])[..|log|] == log;
    forall i | 0 <= i < |log| ensures (log + [e])[..i] == log[..i] {}
  }

  lemma {:induction false} QuietKeeps(before: seq<Event>, after: seq<Event>, auditTick: int)
    requires Quiet(before, after)
    ensures TicksSince(after) <= TicksSince(before)
    ensures LateTicks(after) == LateTicks(before) && Ticks(after) == Ticks(before)
    ensures Shutdowns(after) == Shutdowns(before)
    ensures TicksAreAudited(before, auditTick) ==> TicksAreAudited(after, auditTick)
    ensures SawFlag in after <==> SawFlag in before
    ensures WarmShutdown in after <==> WarmShutdown in before
    ensures Turns(after) == Turns(before) && Work(before) <= Work(after)
    decreases |after|
  {
    if |after| > |before| {
      var n := |after| - 1;
      assert after == after[..n] + [after[n]];
      assert after[..n][..|before|] == after[..|before|] == before;
      QuietKeeps(before, after[..n], auditTick);
      Appended(after[..n], after[n], auditTick);
      NextWork(after[..n], after[n]);
    } else {
      assert after == before;
    }
  }

  predicate OnlySignals(before: seq<Event>, after: seq<Event>) {
    before <= after && forall i :: |before| <= i < |after| ==> after[i] == Signal
  }

  lemma {:induction false} SignalsKeep(before: seq<Event>, after: seq<Event>)
    requires OnlySignals(before, after)
    ensures Audited(after) == Audited(before) && TicksSince(after) == TicksSince(before)
    ensures Turns(after) == Turns(before) && Work(after) == Work(before)
    decreases |after|
  {
    if |after| > |before| {
      var n := |after| - 1;
      assert after == after[..n] + [after[n]];
      assert after[..n][..|before|] == after[..|before|] == before;
      SignalsKeep(before, after[..n]);
      Appended(after[..n], after[n], 0);
      NextWork(after[..n], after[n]);
    } else {
      assert after == before;
    }
  }

  /** What holds of the log until the run winds up. */
  ghost predicate SoundLog(log: seq<Event>, audit: bool, auditTick: int) {
    && (audit ==> TicksAreAudited(log, auditTick)) && OnSchedule(log, audit, auditTick)
    && LateTicks(log) <= (if Signal in log then 1 else 0)
    && Shutdowns(log) == 0 && SawFlag !in log && WarmShutdown !in log
  }

  lemma {:induction false} KeepsSchedule(before: seq<Event>, after: seq<Event>, audit: bool, auditTick: int)
    requires OnSchedule(before, audit, auditTick) && before <= after
    requires forall i :: |before| <= i < |after| ==> after[i] != TickStarted && after[i] != TurnStarted
    ensures OnSchedule(after, audit, auditTick)
    decreases |after|
  {
    if |after| > |before| {
      var n := |after| - 1;
      assert after == after[..n] + [after[n]];
      assert after[..n][..|before|] == after[..|before|] == before;
      KeepsSchedule(before, after[..n], audit, auditTick);
      hide TurnDone;
      hide TickIsDue;
      NextScheduled(after[..n], after[n], audit, auditTick);
    } else {
      assert after == before;
    }
  }

  lemma QuietIsSound(before: seq<Event>, after: seq<Event>, audit: bool, auditTick: int)
    requires SoundLog(before, audit, auditTick) && Quiet(before, after)
    ensures SoundLog(after, audit, auditTick)
    ensures TicksSince(after) <= TicksSince(before) && LateTicks(after) == LateTicks(before)
    ensures Ticks(after) == Ticks(before) && Turns(after) == Turns(before) && Work(before) <= Work(after)
    ensures before <= after
  {
    QuietKeeps(before, after, auditTick);
    KeepsSchedule(before, after, audit, auditTick);
    hide OnSchedule;
  }

  lemma SignalsAreSound(before: seq<Event>, after: seq<Event>, audit: bool, auditTick: int)
    requires SoundLog(before, audit, auditTick) && OnlySignals(before, after)
    ensures SoundLog(after, audit, auditTick)
    ensures TicksSince(after) == TicksSince(before) && LateTicks(after) == LateTicks(before)
    ensures Ticks(after) == Ticks(before) && Turns(after) == Turns(before) && Work(after) == Work(before)
    ensures before <= after
    ensures Audited(after) == Audited(before)
  {
    SignalsKeep(before, after);
    QuietKeeps(before, after, auditTick);
    KeepsSchedule(before, after, audit, auditTick);
    hide OnSchedule;
  }

  lemma TickIsSound(log: seq<Event>, audit: bool, auditTick: int)
    requires SoundLog(log, audit, auditTick) && LateTicks(log) == 0 && TickIsDue(log, audit, auditTick)
    requires audit ==> Audited(log) && TicksSince(log) < MostTicks(auditTick)
    ensures var after := log + [TickStarted];
      && SoundLog(after, audit, auditTick) && Audited(after) == Audited(log)
      && TicksSince(after) == TicksSince(log) + 1 && Ticks(after) == Ticks(log) + 1
      && Turns(after) == Turns(log) && Work(after) == Work(log) + [TickStarted]
  {
    hide OnSchedule;
    hide TickIsDue;
    Appended(log, TickStarted, auditTick);
    NextWork(log, TickStarted);
    NextScheduled(log, TickStarted, audit, auditTick);
    assert (log + [TickStarted])[..|log|] == log;
    assert SawFlag !in [TickStarted] && Event.WarmShutdown !in [TickStarted];
  }

  lemma TurnIsSound(log: seq<Event>, audit: bool, auditTick: int)
    requires SoundLog(log, audit, auditTick)
    requires Turns(log) > 0 ==> TurnDone(log, audit, auditTick, Turns(log) - 1)
    ensures var after := log + [TurnStarted];
      && SoundLog(after, audit, auditTick) && Audited(after) == Audited(log)
      && TicksSince(after) == TicksSince(log) && Ticks(after) == Ticks(log) && LateTicks(after) == LateTicks(log)
      && Turns(after) == Turns(log) + 1 && Work(after) == []
      && (Signal in after <==> Signal in log)
  {
    hide OnSchedule;
    hide TurnDone;
    Appended(log, TurnStarted, auditTick);
    NextWork(log, TurnStarted);
    NextScheduled(log, TurnStarted, audit, auditTick);
    assert SawFlag !in [TurnStarted] && Event.WarmShutdown !in [TurnStarted] && Signal !in [TurnStarted];
  }

  /** What holds of every finished or killed run. */
  ghost predicate SafeLog(log: seq<Event>, audit: bool, auditTick: int) {
    && (audit ==> TicksAreAudited(log, auditTick)) && OnSchedule(log, audit, auditTick)
    && LateTicks(log) <= 1
    && StopsWhenSeen(log)
  }

  lemma EmptyIsSound(audit: bool, auditTick: int)
    ensures SoundLog([], audit, auditTick)
  {
  }

  lemma StartIsSound(log: seq<Event>, audit: bool, auditTick: int)
    requires log == [] || log == [Signal]
    ensures SoundLog(log, audit, auditTick) && Turns(log) == 0
  {
    hide SoundLog;
    EmptyIsSound(audit, auditTick);
    assert Quiet([], log);
    QuietIsSound([], log, audit, auditTick);
  }

  lemma SoundIsSafe(log: seq<Event>, audit: bool, auditTick: int)
    requires SoundLog(log, audit, auditTick)
    ensures SafeLog(log, audit, auditTick) && Shutdowns(log) == 0
  {
  }

  lemma SafeNext(log: seq<Event>, e: Event, audit: bool, auditTick: int)
    requires SafeLog(log, audit, auditTick) && e != TickStarted && e != TurnStarted
    ensures SafeLog(log + [e], audit, auditTick)
  {
    hide OnSchedule;
    hide Turns;
    Appended(log, e, auditTick);
    NextScheduled(log, e, audit, auditTick);
    hide TicksAreAudited;
    hide LateTicks;
  }

  /** Anything but a tick and a turn is safe. */
  lemma {:induction false} SafeAfter(before: seq<Event>, after: seq<Event>, audit: bool, auditTick: int)
    requires SafeLog(before, audit, auditTick) && before <= after
    requires forall i :: |before| <= i < |after| ==> after[i] != TickStarted && after[i] != TurnStarted
    ensures SafeLog(after, audit, auditTick)
    decreases |after|
  {
    hide SafeLog;
    if |after| > |before| {
      var n := |after| - 1;
      assert after == after[..n] + [after[n]];
      assert after[..n][..|before|] == after[..|before|] == before;
      SafeAfter(before, after[..n], audit, auditTick);
      SafeNext(after[..n], after[n], audit, auditTick);
    } else {
      assert after == before;
    }
  }

  lemma {:induction false} SignalsAreNoShutdowns(before: seq<Event>, after: seq<Event>)
    requires OnlySignals(before, after)
    ensures Shutdowns(after) == Shutdowns(before)
  {
    QuietKeeps(before, after, 0);
  }

  /** Seeing the flag is safe, and so are the signals of one call. */
  lemma SawFlagIsSafe(log: seq<Event>, audit: bool, auditTick: int)
    requires SoundLog(log, audit, auditTick)
    ensures SafeLog(log + [SawFlag], audit, auditTick) && Shutdowns(log + [SawFlag]) == 0
    ensures Signal in log + [SawFlag] <==> Signal in log
  {
    SoundIsSafe(log, audit, auditTick);
    Appended(log, SawFlag, auditTick);
    SafeAfter(log, log + [SawFlag], audit, auditTick);
    assert Signal !in [SawFlag];
    hide SafeLog;
    hide SoundLog;
  }

  lemma SignalsAreSafe(before: seq<Event>, after: seq<Event>, audit: bool, auditTick: int)
    requires SafeLog(before, audit, auditTick) && OnlySignals(before, after)
    ensures SafeLog(after, audit, auditTick) && Shutdowns(after) == Shutdowns(before) && before <= after
  {
    SafeAfter(before, after, audit, auditTick);
    SignalsAreNoShutdowns(before, after);
  }

  /** A turn in which an exception was caught is done, whatever its recovery added. */
  lemma CaughtIsDone(log: seq<Event>, later: seq<Event>, audit: bool, auditTick: int, i: nat)
    requires Quiet(log + [Caught], later)
    ensures TurnDone(later, audit, auditTick, i) && Quiet(log, later)
  {
    NextWork(log, Caught);
    QuietKeeps(log + [Caught], later, auditTick);
    assert Work(later)[|Work(log)|] == Caught;
  }

  /** An audit is due instead of the tick: a remainder of zero does not depend on the sign. */
  predicate AuditDue(n: nat, auditTick: int)
    requires auditTick != 0
  {
    n > 0 && n % Magnitude(auditTick) == 0
  }

  /** The most ticks since the last audit when tick n is about to run. */
  function Elapsed(n: nat, auditTick: int): nat {
    if n == 0 then 0 else if auditTick == 0 then 1 else (n - 1) % Magnitude(auditTick) + 1
  }

  lemma RemainderBefore(n: int, a: int)
    requires a > 0 && n % a != 0
    ensures (n - 1) % a == n % a - 1
  {
    var q, r := n / a, n % a;
    assert n == q * a + r;
    Numerals.QuotientUnique(n - 1, a, q, r - 1);
  }

  /** A tick that is no turn of the audit starts within the bound and leaves the next count within it. */
  lemma NextTick(n: nat, auditTick: int)
    requires n > 0 && auditTick != 0 && !AuditDue(n, auditTick)
    ensures Elapsed(n, auditTick) < MostTicks(auditTick)
    ensures Elapsed(n + 1, auditTick) == Elapsed(n, auditTick) + 1
  {
    assert Magnitude(auditTick) > 0;
    RemainderBefore(n, Magnitude(auditTick));
  }

  lemma FirstTurnIs(auditTick: int)
    ensures TurnWork(true, auditTick, 0) == [AuditPassed] + [TickStarted]
    ensures Elapsed(1, auditTick) >= 1 && MostTicks(auditTick) > 0 && (auditTick != 0 ==> !AuditDue(0, auditTick))
  {
  }

  lemma DueNow(log: seq<Event>, audit: bool, auditTick: int, n: nat)
    requires Turns(log) == n + 1 && Work(log) + [TickStarted] == TurnWork(audit, auditTick, n)
    ensures TickIsDue(log, audit, auditTick)
  {
  }

  lemma LaterTurnIs(audit: bool, auditTick: int, n: nat)
    requires audit ==> n > 0 && auditTick != 0
    ensures TurnWork(audit, auditTick, n)
         == if audit && AuditDue(n, auditTick) then [AuditPassed] else [TickStarted]
  {
  }

  // ---- an environment in which nothing goes wrong ----

  /** Every call works, no signal arrives, the strategy is never complete and sleeps at most so long. */
  predicate Smooth(script: seq<Reply>, most: nat) {
    forall i :: 0 <= i < |script| ==>
      script[i].result == Fine && !script[i].signal && !script[i].yes && script[i].seconds <= most
  }

  /** The longest sleep in a script. */
  function Longest(script: seq<Reply>): nat {
    if script == [] then 0 else
      var rest := Longest(script[1..]);
      if script[0].seconds > rest then script[0].seconds else rest
  }

  lemma {:induction false} LongestIs(script: seq<Reply>, i: nat)
    requires i < |script|
    ensures script[i].seconds <= Longest(script)
  {
    if i > 0 { LongestIs(script[1..], i - 1); }
  }

  /** Enough calls for so many turns, each sleeping at most so long. */
  function Enough(turns: nat, most: nat): nat { if turns == 0 then 0 else Enough(turns - 1, most) + 9 + most }

  lemma {:induction false} EnoughGrows(m: nat, n: nat, most: nat)
    requires m <= n
    ensures Enough(m, most) <= Enough(n, most)
  {
    if m < n { EnoughGrows(m, n - 1, most); }
  }

  lemma {:induction false} ScheduleGrows(audit: bool, auditTick: int, m: nat, n: nat)
    requires m <= n
    ensures Schedule(audit, auditTick, m) + [TurnStarted] <= Schedule(audit, auditTick, n) + [TurnStarted]
  {
    hide TurnWork;
    if m < n {
      ScheduleGrows(audit, auditTick, m, n - 1);
      assert Schedule(audit, auditTick, n - 1) + [TurnStarted] <= Schedule(audit, auditTick, n);
    }
  }

  /** As many turns as so many calls are enough for have run, exactly as scheduled, and the next one has started. */
  ghost predicate KeepsTurning(log: seq<Event>, calls: nat, most: nat, audit: bool, auditTick: int) {
    forall n: nat :: Enough(n, most) <= calls ==> Schedule(audit, auditTick, n) + [TurnStarted] <= log
  }

  lemma TurnedEnough(log: seq<Event>, calls: nat, most: nat, audit: bool, auditTick: int, n: nat)
    requires Schedule(audit, auditTick, n) + [TurnStarted] <= log && calls < Enough(n + 1, most)
    ensures KeepsTurning(log, calls, most, audit, auditTick)
  {
    hide Enough;
    hide Schedule;
    forall m: nat | Enough(m, most) <= calls ensures Schedule(audit, auditTick, m) + [TurnStarted] <= log {
      if m > n { EnoughGrows(n + 1, m, most); } else { ScheduleGrows(audit, auditTick, m, n); }
    }
  }

  lemma KeepsGrowing(log: seq<Event>, later: seq<Event>, calls: nat, most: nat, audit: bool, auditTick: int)
    requires KeepsTurning(log, calls, most, audit, auditTick) && log <= later
    ensures KeepsTurning(later, calls, most, audit, auditTick)
  {
    hide Schedule;
    hide Enough;
  }

  lemma ScheduleBegins(audit: bool, auditTick: int, most: nat)
    ensures Schedule(audit, auditTick, 0) == [] && Enough(0, most) == 0
  {
  }

  lemma ScheduleTurns(audit: bool, auditTick: int, n: nat, most: nat)
    ensures Schedule(audit, auditTick, n + 1)
         == Schedule(audit, auditTick, n) + [TurnStarted] + TurnWork(audit, auditTick, n)
    ensures Enough(n + 1, most) == Enough(n, most) + 9 + most
  {
    hide TurnWork;
    assert Schedule(audit, auditTick, n) + ([TurnStarted] + TurnWork(audit, auditTick, n))
        == Schedule(audit, auditTick, n) + [TurnStarted] + TurnWork(audit, auditTick, n);
  }

  lemma WorkIsDone(log: seq<Event>, audit: bool, auditTick: int, i: nat)
    requires Work(log) == TurnWork(audit, auditTick, i)
    ensures TurnDone(log, audit, auditTick, i)
  {
  }

  lemma SameDone(log: seq<Event>, later: seq<Event>, audit: bool, auditTick: int, i: nat)
    requires TurnDone(log, audit, auditTick, i) && Work(later) == Work(log)
    ensures TurnDone(later, audit, auditTick, i)
  {
  }

  // ---- an environment from which the loop recovers ----

  predicate Works(r: Reply) { r.result == Fine && !r.signal }

  predicate Fails(r: Reply) { Catchable(r.result) && !r.signal }

  /** So many audits fail, each followed by a sleep twice as long as the one before, and the next one passes. A failed
      round makes a call for the audit, one to report it, one a second of its sleep, and one to commit. */
  predicate Recovers(script: seq<Reply>, rounds: nat, wait: nat) {
    if rounds == 0 then |script| >= 1 && Works(script[0])
    else RoundFails(script, wait) && Recovers(script[wait + 3..], rounds - 1, 2 * wait)
  }

  predicate RoundFails(script: seq<Reply>, wait: nat) {
    |script| >= wait + 3 && Fails(script[0]) && forall i :: 1 <= i < wait + 3 ==> Works(script[i])
  }

  function RecoveryCalls(rounds: nat, wait: nat): nat {
    if rounds == 0 then 1 else wait + 3 + RecoveryCalls(rounds - 1, 2 * wait)
  }

  /** After so many failed audits the loop has slept 2 ^ rounds - 1 times its first sleep. */
  lemma {:induction false} RecoveryCallsAre(rounds: nat, wait: nat)
    ensures RecoveryCalls(rounds, wait) == 1 + 3 * rounds + wait * (Numerals.Pow(2, rounds) - 1)
  {
    if rounds > 0 {
      RecoveryCallsAre(rounds - 1, 2 * wait);
      var p := Numerals.Pow(2, rounds - 1);
      assert Numerals.Pow(2, rounds) == 2 * p;
      assert 2 * wait * (p - 1) + wait == wait * (2 * p - 1);
    }
  }

  lemma RecoversIs(script: seq<Reply>, rounds: nat, wait: nat)
    requires Recovers(script, rounds, wait)
    ensures rounds == 0 ==> |script| >= 1 && Works(script[0]) && RecoveryCalls(rounds, wait) == 1
    ensures rounds > 0 ==>
      && RoundFails(script, wait) && |script| >= wait + 3 && Recovers(script[wait + 3..], rounds - 1, wait * 2)
      && RecoveryCalls(rounds, wait) == wait + 3 + RecoveryCalls(rounds - 1, wait * 2)
  {
  }

  /** The calls of a failed round: two to fail and report it, the sleep, the commit. */
  lemma RoundIs(script: seq<Reply>, wait: nat)
    requires RoundFails(script, wait)
    ensures |script| >= wait + 3 && Fails(script[0]) && Works(script[1])
    ensures var slept := script[2..];
      && (forall i :: 0 <= i < wait ==> Works(slept[i])) && |slept| >= wait
      && slept[wait..] != [] && Works(slept[wait..][0]) && slept[wait..][1..] == script[wait + 3..]
  {
    hide Works;
    hide Fails;
  }

  lemma SmoothFirst(script: seq<Reply>, most: nat)
    ensures Smooth(script, most) && |script| >= 1 ==>
      script[0].result == Fine && !script[0].signal && !script[0].yes && script[0].seconds <= most
  {
  }

  class Runner {
    const audit: bool
    const auditTick: int
    const execute: bool
    var warmShutdownFlag: bool
    var tickCount: nat
    var log: seq<Event>
    // What the environment will do, call by call; the process is killed when it ends.
    var script: seq<Reply>
    // The longest that it will have the strategy sleep.
    ghost const most: nat

    constructor (audit: bool, auditTick: int, execute: bool, signalled: bool, script: seq<Reply>)
      ensures this.audit == audit && this.auditTick == auditTick && this.execute == execute && this.script == script
      ensures warmShutdownFlag == signalled && log == if signalled then [Signal] else []
      ensures most == Longest(script)
    {
      most := Longest(script);
      this.audit := audit;
      this.auditTick := auditTick;
      this.execute := execute;
      this.script := script;
      warmShutdownFlag := signalled;
      tickCount := 0;
      log := if signalled then [Signal] else [];
    }

    predicate Flagged() reads this { warmShutdownFlag <==> Signal in log }

    ghost predicate Sound() reads this { Flagged() && SoundLog(log, audit, auditTick) }

    /** What the loop top knows: with the flag down, the next tick may start. */
    ghost predicate Cleared() reads this {
      audit && tickCount > 0 && !warmShutdownFlag ==>
        Audited(log) && TicksSince(log) <= Elapsed(tickCount, auditTick)
    }

    ghost predicate Calm() reads this { !warmShutdownFlag && Smooth(script, most) }

    /** Calls out to the environment. */
    method Call() returns (r: Reply)
      requires Flagged()
      modifies this`warmShutdownFlag, this`log, this`script
      ensures Flagged() && OnlySignals(old(log), log)
      ensures old(Calm() && |script| >= 1) ==>
        r == old(script)[0] && Calm() && log == old(log) && |script| == |old(script)| - 1
      ensures old(script) != [] && !old(script)[0].signal ==>
        && r == old(script)[0] && script == old(script)[1..]
        && log == old(log) && warmShutdownFlag == old(warmShutdownFlag)
      ensures |script| < |old(script)| || r.result == Killed
      ensures |script| <= |old(script)|
    {
      if script == [] { return Reply(Killed, false, false, 0); }
      r := script[0];
      script := script[1..];
      if r.signal {
        warmShutdownFlag := true;
        log := log + [Signal];
      }
    }

    method FullAudit() returns (r: Result)
      requires Flagged()
      modifies this`warmShutdownFlag, this`log, this`script
      ensures Flagged() && Quiet(old(log), log)
      ensures r == Fine ==> Audited(log) && TicksSince(log) == 0
      ensures Work(log) == old(Work(log)) + if r == Fine then [AuditPassed] else []
      ensures |script| <= |old(script)| && (r != Killed ==> |script| < |old(script)|)
      ensures old(Calm() && |script| >= 1) ==>
        r == Fine && Calm() && log == old(log) + [AuditPassed] && |script| == |old(script)| - 1
      ensures old(script) != [] && !old(script)[0].signal ==>
        && r == old(script)[0].result && script == old(script)[1..] && warmShutdownFlag == old(warmShutdownFlag)
        && log == old(log) + if r == Fine then [AuditPassed] else []
    {
      hide Smooth;
      SmoothFirst(script, most);
      var reply := Call();
      SignalsKeep(old(log), log);
      r := reply.result;
      if r == Fine {
        Appended(log, AuditPassed, auditTick);
        NextWork(log, AuditPassed);
        log := log + [AuditPassed];
      }
    }

    /** Sleeps in seconds so that the flag can cut it short. */
    method GentleSleep(seconds: nat) returns (r: Result)
      requires Flagged()
      modifies this`warmShutdownFlag, this`log, this`script
      ensures Flagged() && OnlySignals(old(log), log)
      ensures |script| <= |old(script)|
      ensures old(Calm() && |script| >= seconds) ==>
        r == Fine && Calm() && log == old(log) && |script| == |old(script)| - seconds
      ensures old(!warmShutdownFlag && |script| >= seconds && forall i :: 0 <= i < seconds ==> Works(script[i])) ==>
        r == Fine && !warmShutdownFlag && log == old(log) && script == old(script)[seconds..]
    {
      hide Smooth;
      for i := 0 to seconds
        invariant Flagged() && OnlySignals(old(log), log) && |script| <= |old(script)|
        invariant old(Calm() && |script| >= seconds) ==>
          Calm() && log == old(log) && |script| == |old(script)| - i
        invariant old(!warmShutdownFlag && |script| >= seconds && forall i :: 0 <= i < seconds ==> Works(script[i])) ==>
          !warmShutdownFlag && log == old(log) && script == old(script)[i..]
      {
        if warmShutdownFlag { break; }
        SmoothFirst(script, most);
        var reply := Call();
        if reply.result != Fine { return reply.result; }
      }
      r := Fine;
    }

    /** Tries to recover by auditing; escaped is what its own handler raised, if it did. */
    method HandleException() returns (success: bool, escaped: Result)
      requires Flagged()
      modifies this`warmShutdownFlag, this`log, this`script
      ensures Flagged() && Quiet(old(log), log)
      ensures success && audit ==> Audited(log) && TicksSince(log) == 0
      ensures |script| <= |old(script)|
      ensures old(Calm() && |script| >= 1) ==>
        success && escaped == Fine && Calm() && log == old(log) + if audit then [AuditPassed] else []
      ensures audit && old(|script| >= 1 && Works(script[0])) ==>
        && success && escaped == Fine && script == old(script)[1..] && log == old(log) + [AuditPassed]
        && warmShutdownFlag == old(warmShutdownFlag)
      ensures audit && old(|script| >= 2 && Fails(script[0]) && Works(script[1])) ==>
        && !success && escaped == Fine && script == old(script)[2..] && log == old(log)
        && warmShutdownFlag == old(warmShutdownFlag)
      ensures !success && escaped == Fine ==> |script| < |old(script)|
    {
      if audit {
        var r := FullAudit();
        if Catchable(r) {
          var reply := Call();
          return false, reply.result;
        }
        if r != Fine { return false, r; }
      }
      return true, Fine;
    }

    /** One round of the retry loop: recover, or back off and commit. */
    method RetryRound(backoffSeconds: nat) returns (r: Result, over: bool)
      requires Flagged()
      modifies this`warmShutdownFlag, this`log, this`script
      ensures Flagged() && Quiet(old(log), log) && |script| <= |old(script)|
      ensures over && r == Fine && audit ==> Audited(log) && TicksSince(log) == 0
      ensures !over ==> |script| < |old(script)|
      ensures audit && old(|script| >= 1 && Works(script[0])) ==>
        && over && r == Fine && log == old(log) + [AuditPassed] && script == old(script)[1..]
        && warmShutdownFlag == old(warmShutdownFlag)
      ensures audit && old(!warmShutdownFlag && RoundFails(script, backoffSeconds)) ==>
        !over && !warmShutdownFlag && log == old(log) && script == old(script)[backoffSeconds + 3..]
    {
      hide Smooth;
      hide Audited;
      hide TicksSince;
      hide RoundFails;
      hide Fails;
      if RoundFails(script, backoffSeconds) { RoundIs(script, backoffSeconds); }
      over := true;
      var success, escaped := HandleException();
      if escaped != Fine { return escaped, true; }
      if success { return Fine, true; }
      r := GentleSleep(backoffSeconds);
      if r != Fine { return; }
      var reply := Call();
      r, over := reply.result, reply.result != Fine;
    }

    /** Ends well only with a passed audit (when auditing) or with the flag up. Where audits fail so many times and then
        one passes, it recovers, having slept ten seconds after the first failure and twice as long after each next. */
    method ExceptionRetryLoop(ghost rounds: nat) returns (r: Result)
      requires Flagged()
      modifies this`warmShutdownFlag, this`log, this`script
      ensures Flagged() && Quiet(old(log), log)
      ensures r == Fine && audit && !warmShutdownFlag ==> Audited(log) && TicksSince(log) == 0
      ensures |script| <= |old(script)|
      ensures audit && old(!warmShutdownFlag && Recovers(script, rounds, 10)) ==>
        && r == Fine && !warmShutdownFlag && log == old(log) + [AuditPassed]
        && |script| == |old(script)| - RecoveryCalls(rounds, 10)
      ensures audit && old(!warmShutdownFlag && |script| >= 1 && Works(script[0])) ==>
        r == Fine && !warmShutdownFlag && log == old(log) + [AuditPassed] && script == old(script)[1..]
    {
      hide Smooth;
      hide Audited;
      hide TicksSince;
      hide Works;
      hide Fails;
      hide RoundFails;
      hide Recovers;
      hide RecoveryCalls;
      var backoffSeconds: nat := 10;
      ghost var left := rounds;
      ghost var recovering := audit && !warmShutdownFlag && Recovers(script, rounds, 10);
      while !warmShutdownFlag
        invariant Flagged() && Quiet(old(log), log) && |script| <= |old(script)|
        invariant audit && old(!warmShutdownFlag && |script| >= 1 && Works(script[0])) ==>
          script == old(script) && log == old(log) && !warmShutdownFlag
        invariant recovering ==>
          && !warmShutdownFlag && log == old(log) && Recovers(script, left, backoffSeconds)
          && |old(script)| - RecoveryCalls(rounds, 10) == |script| - RecoveryCalls(left, backoffSeconds)
        decreases |script|
      {
        if recovering { RecoversIs(script, left, backoffSeconds); }
        var over;
        r, over := RetryRound(backoffSeconds);
        if over { return; }
        backoffSeconds := backoffSeconds * 2;
        left := if left == 0 then 0 else left - 1;
      }
      r := Fine;
    }

    /** The audit before the first tick: a fast one, and one with a wind-down if that fails as an audit. */
    method InitialAudit() returns (r: Result)
      requires Flagged()
      modifies this`warmShutdownFlag, this`log, this`script
      ensures Flagged() && Quiet(old(log), log)
      ensures r == Fine ==> Audited(log) && TicksSince(log) == 0
      ensures r == Fine ==> Work(log) == old(Work(log)) + [AuditPassed]
      ensures |script| <= |old(script)|
      ensures old(Calm() && |script| >= 1) ==>
        r == Fine && Calm() && log == old(log) + [AuditPassed] && |script| == |old(script)| - 1
      ensures old(|script| >= 2 && Fails(script[0]) && script[0].result == AuditException && Works(script[1])) ==>
        r == Fine && log == old(log) + [AuditPassed] && script == old(script)[2..]
    {
      hide Smooth;
      hide Work;
      hide Audited;
      hide TicksSince;
      r := FullAudit();
      if r == AuditException { r := FullAudit(); }
    }

    /** A tick and what follows it. */
    method TickAndPostTick() returns (r: Result)
      requires Sound() && LateTicks(log) == 0 && TickIsDue(log, audit, auditTick)
      requires audit ==> Audited(log) && TicksSince(log) < MostTicks(auditTick)
      modifies this`warmShutdownFlag, this`log, this`script
      ensures Sound() && Audited(log) == old(Audited(log)) && TicksSince(log) == old(TicksSince(log)) + 1
      ensures Ticks(log) == old(Ticks(log)) + 1
      ensures Turns(log) == old(Turns(log)) && Work(log) == old(Work(log)) + [TickStarted]
      ensures |script| <= |old(script)| && old(log) <= log
      ensures old(Calm() && |script| >= 2) ==>
        r == Fine && Calm() && log == old(log) + [TickStarted] && |script| == |old(script)| - 2
      ensures old(script != [] && Fails(script[0])) ==>
        && r == old(script)[0].result && log == old(log) + [TickStarted] && script == old(script)[1..]
        && warmShutdownFlag == old(warmShutdownFlag)
    {
      hide Audited;
      hide TicksSince;
      hide Ticks;
      hide LateTicks;
      hide SoundLog;
      hide TickIsDue;
      hide Work;
      hide Turns;
      hide Smooth;
      TickIsSound(log, audit, auditTick);
      SmoothFirst(script, most);
      log := log + [TickStarted];
      ghost var started := log;
      var reply := Call();
      SmoothFirst(script, most);
      if reply.result == Fine { reply := Call(); }
      SignalsAreSound(started, log, audit, auditTick);
      r := reply.result;
    }

    /** Tick data, tick block data and heartbeat. */
    method Bookkeeping() returns (r: Result)
      requires Flagged()
      modifies this`warmShutdownFlag, this`log, this`script
      ensures Flagged() && OnlySignals(old(log), log) && |script| <= |old(script)|
      ensures old(Calm() && |script| >= 3) ==>
        r == Fine && Calm() && log == old(log) && |script| == |old(script)| - 3
    {
      hide Smooth;
      SmoothFirst(script, most);
      var reply := Call();
      SmoothFirst(script, most);
      if reply.result == Fine { reply := Call(); }
      SmoothFirst(script, most);
      if reply.result == Fine { reply := Call(); }
      r := reply.result;
    }

    /** The audit before the first tick, and that tick. */
    method FirstTurn() returns (r: Result)
      requires Sound() && LateTicks(log) == 0 && audit && Turns(log) == 1 && Work(log) == []
      modifies this`warmShutdownFlag, this`log, this`script
      ensures Sound() && Turns(log) == 1
      ensures r == Fine ==> Audited(log) && TicksSince(log) == 1
      ensures r == Fine ==> Work(log) == TurnWork(true, auditTick, 0) && Ticks(log) == old(Ticks(log)) + 1
      ensures |script| <= |old(script)| && old(log) <= log
      ensures old(Calm() && |script| >= 3) ==>
        r == Fine && Calm() && log == old(log) + TurnWork(true, auditTick, 0) && |script| >= |old(script)| - 3
    {
      hide Audited;
      hide TicksSince;
      hide LateTicks;
      hide Ticks;
      hide SoundLog;
      hide Quiet;
      hide Work;
      hide Turns;
      hide TurnWork;
      hide MostTicks;
      hide Smooth;
      hide TickIsDue;
      ghost var before := log;
      FirstTurnIs(auditTick);
      r := InitialAudit();
      QuietIsSound(before, log, audit, auditTick);
      if r != Fine { return; }
      assert Work(log) == [AuditPassed];
      DueNow(log, audit, auditTick, 0);
      ghost var audited := log;
      r := TickAndPostTick();
    }

    /** The turn at hand is one that ticks and does not audit. */
    predicate JustTicks() reads this`tickCount {
      !audit || (tickCount > 0 && auditTick != 0 && !AuditDue(tickCount, auditTick))
    }

    /** What a turn is for: a tick, or an audit when one is due; the first turn audits and ticks. */
    method AuditOrTick() returns (r: Result)
      requires Sound() && Cleared() && !warmShutdownFlag
      requires Turns(log) == tickCount + 1 && Work(log) == []
      modifies this`warmShutdownFlag, this`log, this`script
      ensures Sound() && Turns(log) == old(Turns(log))
      ensures r == Fine && audit && !warmShutdownFlag ==>
        Audited(log) && TicksSince(log) <= Elapsed(tickCount + 1, auditTick)
      ensures r == Fine ==> !(audit && tickCount > 0 && auditTick == 0)
      ensures r == Fine ==>
        && Work(log) == TurnWork(audit, auditTick, tickCount)
        && Ticks(log) == old(Ticks(log)) + if audit && auditTick != 0 && AuditDue(tickCount, auditTick) then 0 else 1
      ensures |script| <= |old(script)| && old(log) <= log
      ensures old(Calm() && |script| >= 3) && !(audit && tickCount > 0 && auditTick == 0) ==>
        && r == Fine && Calm() && log == old(log) + TurnWork(audit, auditTick, tickCount)
        && |script| >= |old(script)| - 3
      ensures JustTicks() && old(script != [] && Fails(script[0])) ==>
        r == old(script)[0].result && log == old(log) + [TickStarted] && script == old(script)[1..] && !warmShutdownFlag
    {
      assert LateTicks(log) == 0;
      hide Audited;
      hide TicksSince;
      hide LateTicks;
      hide Ticks;
      hide SoundLog;
      hide Quiet;
      hide OnlySignals;
      hide Work;
      hide Turns;
      hide TurnWork;
      hide Elapsed;
      hide MostTicks;
      hide Smooth;
      hide TickIsDue;
      if audit && tickCount == 0 {
        FirstTurnIs(auditTick);
        r := FirstTurn();
        return;
      }
      // A zero audit_tick divides by zero.
      if audit && auditTick == 0 { return OtherException; }
      LaterTurnIs(audit, auditTick, tickCount);
      ghost var before := log;
      if audit && AuditDue(tickCount, auditTick) {
        r := FullAudit();
        QuietIsSound(before, log, audit, auditTick);
      } else {
        if audit { NextTick(tickCount, auditTick); }
        assert Work(log) + [TickStarted] == [TickStarted];
        DueNow(log, audit, auditTick, tickCount);
        r := TickAndPostTick();
      }
    }

    /** The body of one turn: an audit or a tick, and the bookkeeping after it. Without an exception exactly one
        tick starts, or none when an audit is due; the first turn audits and ticks. */
    method Turn() returns (r: Result)
      requires Sound() && Cleared() && !warmShutdownFlag
      requires Turns(log) == tickCount + 1 && Work(log) == []
      modifies this`warmShutdownFlag, this`log, this`script
      ensures Sound() && Turns(log) == old(Turns(log))
      ensures r == Fine && audit && !warmShutdownFlag ==>
        Audited(log) && TicksSince(log) <= Elapsed(tickCount + 1, auditTick)
      ensures r == Fine ==> !(audit && tickCount > 0 && auditTick == 0)
      ensures r == Fine ==>
        && Work(log) == TurnWork(audit, auditTick, tickCount)
        && Ticks(log) == old(Ticks(log)) + if audit && auditTick != 0 && AuditDue(tickCount, auditTick) then 0 else 1
      ensures |script| <= |old(script)| && old(log) <= log
      ensures old(Calm() && |script| >= 6) && !(audit && tickCount > 0 && auditTick == 0) ==>
        && r == Fine && Calm() && log == old(log) + TurnWork(audit, auditTick, tickCount)
        && |script| >= |old(script)| - 6
      ensures JustTicks() && old(script != [] && Fails(script[0])) ==>
        r == old(script)[0].result && log == old(log) + [TickStarted] && script == old(script)[1..] && !warmShutdownFlag
    {
      hide Audited;
      hide TicksSince;
      hide Ticks;
      hide SoundLog;
      hide Work;
      hide Turns;
      hide TurnWork;
      hide Elapsed;
      hide AuditDue;
      hide Smooth;
      r := AuditOrTick();
      if r != Fine { return; }
      ghost var worked := log;
      r := Bookkeeping();
      SignalsAreSound(worked, log, audit, auditTick);
    }

    /** One turn with its exception handler: afterwards the flag is up or, when auditing, an audit has passed
        since the last exception. */
    method GuardedTurn() returns (r: Result)
      requires Sound() && Cleared() && !warmShutdownFlag
      requires Turns(log) == tickCount + 1 && Work(log) == []
      modifies this`warmShutdownFlag, this`log, this`script
      ensures Sound() && Turns(log) == old(Turns(log))
      ensures r == Fine && audit && !warmShutdownFlag ==>
        Audited(log) && TicksSince(log) <= Elapsed(tickCount + 1, auditTick)
      ensures r == Fine ==> TurnDone(log, audit, auditTick, tickCount)
      ensures |script| <= |old(script)| && old(log) <= log
      ensures old(Calm() && |script| >= 6) && !(audit && tickCount > 0 && auditTick == 0) ==>
        && r == Fine && Calm() && log == old(log) + TurnWork(audit, auditTick, tickCount)
        && |script| >= |old(script)| - 6
      // A tick that raises is caught, and the run goes on once an audit has passed.
      ensures audit && JustTicks() && old(|script| >= 3 && Fails(script[0]) && Works(script[1]) && Works(script[2])) ==>
        r == Fine && !warmShutdownFlag && log == old(log) + [TickStarted, Caught, AuditPassed] && script == old(script)[3..]
    {
      hide Audited;
      hide TicksSince;
      hide SoundLog;
      hide Work;
      hide Turns;
      hide TurnWork;
      hide TurnDone;
      hide Elapsed;
      hide AuditDue;
      hide Ticks;
      hide Smooth;
      r := Turn();
      if r == Fine {
        WorkIsDone(log, audit, auditTick, tickCount);
        return;
      }
      if Catchable(r) {
        ghost var before := log;
        log := log + [Caught];
        var reply := Call();
        r := reply.result;
        if r == Fine { r := ExceptionRetryLoop(0); }
        CaughtIsDone(before, log, audit, auditTick, tickCount);
        QuietIsSound(before, log, audit, auditTick);
      }
    }

    /** Between turns: whether the strategy is complete, and the sleep until the next tick. */
    method Pause() returns (r: Result, complete: bool)
      requires Flagged()
      modifies this`warmShutdownFlag, this`log, this`script
      ensures Flagged() && OnlySignals(old(log), log) && |script| <= |old(script)|
      ensures old(Calm() && |script| >= 2 + most) ==>
        r == Fine && !complete && Calm() && log == old(log) && |script| >= |old(script)| - 2 - most
    {
      hide Smooth;
      SmoothFirst(script, most);
      complete := false;
      var reply := Call();
      if reply.result != Fine { return reply.result, false; }
      if reply.yes { return Fine, true; }
      SmoothFirst(script, most);
      reply := Call();
      if reply.result != Fine { return reply.result, false; }
      r := GentleSleep(reply.seconds);
    }

    /** Nothing has gone wrong so far: the log is the schedule, and the calls made are no more than the turns take. */
    ghost predicate OnCourse(calls: nat) reads this {
      Calm() && log == Schedule(audit, auditTick, tickCount) && calls <= |script| + Enough(tickCount, most)
    }

    /** The top of the loop: it leaves if the flag is up, else a turn. */
    method BeginTurn(ghost calls: nat, ghost steady: bool) returns (r: Result, leaving: bool)
      requires Sound() && Cleared() && Turns(log) == tickCount
      requires tickCount > 0 ==> TurnDone(log, audit, auditTick, tickCount - 1)
      requires steady ==> OnCourse(calls) && (audit ==> auditTick != 0)
      modifies this`warmShutdownFlag, this`log, this`script
      ensures Flagged() && SafeLog(log, audit, auditTick) && Shutdowns(log) == 0 && |script| <= |old(script)|
      ensures old(log) <= log
      ensures leaving ==> r == Fine
      ensures !leaving ==> Sound() && Turns(log) == tickCount + 1
      ensures !leaving && r == Fine ==>
        && TurnDone(log, audit, auditTick, tickCount)
        && (audit && !warmShutdownFlag ==> Audited(log) && TicksSince(log) <= Elapsed(tickCount + 1, auditTick))
      ensures steady && |old(script)| >= 9 + most ==>
        && !leaving && r == Fine && Calm() && |script| >= |old(script)| - 6
        && log == Schedule(audit, auditTick, tickCount + 1) && calls <= |old(script)| + Enough(tickCount, most)
      ensures steady && |old(script)| < 9 + most ==> KeepsTurning(log, calls, most, audit, auditTick)
    {
      hide SoundLog;
      hide SafeLog;
      hide Audited;
      hide TicksSince;
      hide Shutdowns;
      hide Turns;
      hide TurnDone;
      hide Smooth;
      hide Schedule;
      hide Enough;
      hide KeepsTurning;
      hide TurnWork;
      hide Elapsed;
      SoundIsSafe(log, audit, auditTick);
      ghost var top := log;
      leaving := warmShutdownFlag;
      if leaving {
        SawFlagIsSafe(log, audit, auditTick);
        log := log + [SawFlag];
        r := Fine;
      } else {
        TurnIsSound(log, audit, auditTick);
        ScheduleTurns(audit, auditTick, tickCount, most);
        if steady && |script| < 9 + most {
          TurnedEnough(log + [TurnStarted], calls, most, audit, auditTick, tickCount);
        }
        log := log + [TurnStarted];
        ghost var started := log;
        r := GuardedTurn();
        SoundIsSafe(log, audit, auditTick);
        if steady && |old(script)| < 9 + most { KeepsGrowing(started, log, calls, most, audit, auditTick); }
      }
    }

    /** The end of the loop: the finally block commits, then counts the tick, and overrides how the turn ended; then the
        pause, unless it is over. */
    method EndTurn(turn: Result, leaving: bool) returns (r: Result, over: bool)
      requires Flagged() && SafeLog(log, audit, auditTick) && Shutdowns(log) == 0 && turn != Killed
      requires !leaving ==> Sound() && Turns(log) == tickCount + 1
      requires !leaving && turn == Fine ==>
        && TurnDone(log, audit, auditTick, tickCount)
        && (audit && !warmShutdownFlag ==> Audited(log) && TicksSince(log) <= Elapsed(tickCount + 1, auditTick))
      modifies this`warmShutdownFlag, this`log, this`script, this`tickCount
      ensures Flagged() && SafeLog(log, audit, auditTick) && Shutdowns(log) == 0 && old(log) <= log
      ensures !over ==>
        && |script| < |old(script)| && tickCount == old(tickCount) + 1
        && Sound() && Cleared() && Turns(log) == tickCount && TurnDone(log, audit, auditTick, tickCount - 1)
      ensures !leaving && turn == Fine && old(Calm() && |script| >= 3 + most) ==>
        !over && Calm() && log == old(log) && |script| >= |old(script)| - 3 - most
    {
      hide SoundLog;
      hide SafeLog;
      hide Audited;
      hide TicksSince;
      hide Shutdowns;
      hide Turns;
      hide Work;
      hide TurnDone;
      hide Smooth;
      hide Elapsed;
      ghost var turned := log;
      SmoothFirst(script, most);
      over, r := true, turn;
      var reply := Call();
      SignalsAreSafe(turned, log, audit, auditTick);
      if reply.result != Fine { r := reply.result; }
      if r == Killed { return; }
      if reply.result == Fine { tickCount := tickCount + 1; }
      if leaving || r != Fine { return; }
      var complete;
      r, complete := Pause();
      SignalsAreSafe(turned, log, audit, auditTick);
      SignalsAreSound(turned, log, audit, auditTick);
      SameDone(turned, log, audit, auditTick, tickCount - 1);
      over := r != Fine || complete;
    }

    /** The loop: it ends when the flag is seen, when the strategy is complete, by an exception that escapes or by
        the process being killed; where nothing goes wrong it turns and turns. */
    method Loop() returns (r: Result)
      requires Sound() && tickCount == 0 && Turns(log) == 0
      modifies this
      ensures Flagged() && SafeLog(log, audit, auditTick) && Shutdowns(log) == 0
      ensures old(Calm() && log == []) && (audit ==> auditTick != 0) ==>
        KeepsTurning(log, |old(script)|, most, audit, auditTick)
    {
      hide SoundLog;
      hide SafeLog;
      hide Shutdowns;
      hide Turns;
      hide TurnDone;
      hide Smooth;
      hide Schedule;
      hide Enough;
      hide KeepsTurning;
      hide Audited;
      hide TicksSince;
      hide Elapsed;
      ghost var calls, steady := |script|, Calm() && log == [] && (audit ==> auditTick != 0);
      if steady { ScheduleBegins(audit, auditTick, most); }
      SoundIsSafe(log, audit, auditTick);
      r := Fine;
      // Whether there were calls enough for every turn so far.
      ghost var course := steady;
      var over := false;
      while !over
        invariant Flagged() && SafeLog(log, audit, auditTick) && Shutdowns(log) == 0
        invariant !over ==> Sound() && Cleared() && Turns(log) == tickCount
        invariant !over && tickCount > 0 ==> TurnDone(log, audit, auditTick, tickCount - 1)
        invariant course ==> steady && !over && OnCourse(calls)
        invariant steady && !course ==> KeepsTurning(log, calls, most, audit, auditTick)
        decreases if over then 0 else |script| + 1
      {
        ghost var top, room := log, |script| >= 9 + most;
        ScheduleTurns(audit, auditTick, tickCount, most);
        var leaving;
        r, leaving := BeginTurn(calls, course);
        if steady && !course { KeepsGrowing(top, log, calls, most, audit, auditTick); }
        course := course && room;
        if r == Killed { return; }
        ghost var turned := log;
        r, over := EndTurn(r, leaving);
        if steady && !course { KeepsGrowing(turned, log, calls, most, audit, auditTick); }
      }
    }

    /** Winds down if executing; what it raises is caught. */
    method WarmShutdown() returns (r: Result)
      requires Flagged() && SafeLog(log, audit, auditTick)
      modifies this`warmShutdownFlag, this`log, this`script
      ensures Flagged() && SafeLog(log, audit, auditTick) && Shutdowns(log) == old(Shutdowns(log)) + 1
      ensures old(log) <= log
    {
      hide SafeLog;
      hide Shutdowns;
      Appended(log, Event.WarmShutdown, auditTick);
      log := log + [Event.WarmShutdown];
      SafeAfter(old(log), log, audit, auditTick);
      ghost var begun := log;
      r := Fine;
      if execute {
        var reply := Call();
        r := reply.result;
        if Catchable(r) {
          reply := Call();
          r := reply.result;
        }
      }
      SafeAfter(begun, log, audit, auditTick);
      SignalsAreNoShutdowns(begun, log);
    }

    /** Every run, in every environment: each tick is preceded by a passed audit with no exception and fewer than
        audit_tick ticks since; at most the one turn a signal catches still ticks, and none once the loop saw the
        flag; and unless the process is killed the warm shutdown runs exactly once, after the last tick. */
    method LiveRun() returns (r: Result)
      requires log == (if warmShutdownFlag then [Signal] else [])
      modifies this
      ensures SafeLog(log, audit, auditTick)
      ensures Shutdowns(log) <= 1 && (r != Killed ==> Shutdowns(log) == 1)
      ensures old(Calm()) && (audit ==> auditTick != 0) ==>
        KeepsTurning(log, |old(script)|, most, audit, auditTick)
    {
      hide SoundLog;
      hide SafeLog;
      hide Shutdowns;
      hide KeepsTurning;
      hide Smooth;
      StartIsSound(log, audit, auditTick);
      ghost var calls, steady := |script|, Calm() && (audit ==> auditTick != 0);
      tickCount := 0;
      r := Loop();
      if r == Killed { return; }
      ghost var turned := log;
      var w := WarmShutdown();
      if steady { KeepsGrowing(turned, log, calls, most, audit, auditTick); }
      if w != Fine { return w; }
      ghost var shut := log;
      var reply := Call();
      if reply.result == Fine { reply := Call(); }
      SafeAfter(shut, log, audit, auditTick);
      SignalsAreNoShutdowns(shut, log);
      if steady { KeepsGrowing(shut, log, calls, most, audit, auditTick); }
      if reply.result != Fine { r := reply.result; }
    }
  }
}
