/**
 * The server that periodically "freaks out": for part of every period its
 * response time is a hundred times its average. The wall clock is a
 * parameter (`now`, in milliseconds, as `System.currentTimeMillis()` gives it).
 */
module FreakOut {
  import opened Wrappers
  import opened JavaArith

  /** The two log events a call can produce when the server changes state. */
  datatype Transition = GonnaFreakOut | NotFreakingOut

  /** What one call to `response()` yields: the delay in milliseconds and the transition it logged, if any. */
  datatype Reply = Reply(delay: int, event: Option<Transition>)

  /** `x % 0` on a Java `long` throws `ArithmeticException`. */
  datatype Fault = DivisionByZero

  /** Whole seconds since start: both clocks are truncated to seconds before subtracting. */
  function ElapsedSeconds(start: int, now: int): (e: int)
    ensures 0 <= start <= now ==> e >= 0
  {
    Div(now, 1000) - Div(start, 1000)
  }

  /** The position of the current second within the period, with Java's remainder. */
  function Phase(start: int, now: int, period: int): (m: int)
    requires period != 0
    ensures Abs(m) < Abs(period)
    ensures ElapsedSeconds(start, now) >= 0 ==> m >= 0
  {
    Rem(ElapsedSeconds(start, now), period)
  }

  /** The server is degraded strictly inside the window that opens after the first second of each period. */
  predicate Degraded(start: int, now: int, period: int, duration: int)
    requires period != 0
    ensures Degraded(start, now, period, duration) ==> ElapsedSeconds(start, now) > 0 && duration >= 2
  {
    0 < Phase(start, now, period) < duration
  }

  /** The response time: the average when healthy, a hundred times it when degraded. */
  function Delay(average: int, degraded: bool): (d: int)
    ensures average >= 0 ==> average <= d <= 100 * average
    ensures average > 0 ==> (degraded <==> d > average)
  {
    if degraded then 100 * average else average
  }

  /** The event logged when the remembered state differs from the new verdict. */
  function Event(wasFreakingOut: bool, degraded: bool): (e: Option<Transition>)
    ensures e == Some(GonnaFreakOut) <==> !wasFreakingOut && degraded
    ensures e == Some(NotFreakingOut) <==> wasFreakingOut && !degraded
    ensures e == None <==> wasFreakingOut == degraded
  {
    if degraded == wasFreakingOut then None
    else if degraded then Some(GonnaFreakOut)
    else Some(NotFreakingOut)
  }

  class FreakOutServer {
    const start: int
    const average: int32
    const period: int32
    const duration: int32
    var freakingOut: bool

    /** The start time is the clock reading taken when the server is built. */
    constructor (clock: int, average: int32, period: int32, duration: int32)
      ensures this.start == clock && this.average == average
      ensures this.period == period && this.duration == duration
      ensures !freakingOut
    {
      this.start := clock;
      this.average := average;
      this.period := period;
      this.duration := duration;
      this.freakingOut := false;
    }

    predicate DegradedAt(now: int)
      reads this
      requires period != 0
      ensures DegradedAt(now) ==> Div(now, 1000) > Div(start, 1000)
    {
      Degraded(start, now, period as int, duration as int)
    }

    /** One call of `response()` at clock reading `now`. */
    method Response(now: int) returns (r: Result<Reply, Fault>)
      modifies this
      ensures period == 0 ==> r == Failure(DivisionByZero) && freakingOut == old(freakingOut)
      ensures period != 0 ==> freakingOut == DegradedAt(now)
      ensures period != 0 ==> r.Success?
      ensures period != 0 ==> r.value.delay == Delay(average as int, freakingOut)
      ensures period != 0 ==> r.value.event == Event(old(freakingOut), freakingOut)
    {
      if period == 0 {
        return Failure(DivisionByZero);
      }
      var mod := Rem(Div(now, 1000) - Div(start, 1000), period as int);
      var event := None;
      if mod > 0 && mod < duration as int {
        if !freakingOut {
          event := Some(GonnaFreakOut);
        }
        freakingOut := true;
      } else {
        if freakingOut {
          event := Some(NotFreakingOut);
        }
        freakingOut := false;
      }
      if !freakingOut {
        return Success(Reply(1 * average as int, event));
      }
      return Success(Reply(100 * average as int, event));
    }
  }

  /** A second call with the same verdict as the first logs nothing. */
  method RepeatedVerdictIsSilent(server: FreakOutServer, now1: int, now2: int)
      returns (first: Result<Reply, Fault>, second: Result<Reply, Fault>)
    requires server.period != 0
    requires server.DegradedAt(now1) == server.DegradedAt(now2)
    modifies server
    ensures first.Success? && second.Success?
    ensures first.value.event.Some? <==> old(server.freakingOut) != server.DegradedAt(now1)
    ensures second.value.event == None && second.value.delay == first.value.delay
  {
    first := server.Response(now1);
    second := server.Response(now2);
  }

  /** Over the range of Java `long` clock readings, the subtraction of seconds cannot overflow. */
  lemma ElapsedFitsInLong(start: int, now: int)
    requires IsLong(start) && IsLong(now)
    ensures IsLong(ElapsedSeconds(start, now))
  {
  }

  /** Once the clock has not run backwards, Java's remainder is the ordinary one. */
  lemma DegradedFromElapsed(start: int, now: int, period: int, duration: int)
    requires period > 0 && ElapsedSeconds(start, now) >= 0
    ensures Degraded(start, now, period, duration) <==>
            0 < ElapsedSeconds(start, now) % period < duration
  {
  }

  /** A clock reading before the start second gives a non-positive phase, hence a healthy server. */
  lemma NegativeElapsedIsHealthy(start: int, now: int, period: int, duration: int)
    requires period != 0 && ElapsedSeconds(start, now) < 0
    ensures !Degraded(start, now, period, duration)
  {
  }

  /** Adding one period of milliseconds to a non-negative clock gives the same verdict and the same delay. */
  lemma {:induction false} DegradedIsPeriodic(start: int, now: int, period: int, duration: int, average: int)
    requires period > 0 && now >= 0 && ElapsedSeconds(start, now) >= 0
    ensures Degraded(start, now + period * 1000, period, duration) == Degraded(start, now, period, duration)
    ensures Delay(average, Degraded(start, now + period * 1000, period, duration)) ==
            Delay(average, Degraded(start, now, period, duration))
  {
    var later := now + period * 1000;
    NonNegativeDivRem(now, 1000);
    NonNegativeDivRem(later, 1000);
    ShiftDivRem(now, period, 1000);
    var e := ElapsedSeconds(start, now);
    assert ElapsedSeconds(start, later) == e + period;
    NonNegativeDivRem(e, period);
    NonNegativeDivRem(e + period, period);
    ShiftDivRem(e, 1, period);
  }

  /**
   * The topology's degrading server has a period of 60 s and a window of 20 s:
   * second 0 of each period is healthy, seconds 1 to 19 degraded, 20 to 59 healthy.
   */
  lemma StandardSchedule(start: int, now: int)
    requires ElapsedSeconds(start, now) >= 0
    ensures Degraded(start, now, 60, 20) <==> 1 <= ElapsedSeconds(start, now) % 60 <= 19
    ensures 0 <= ElapsedSeconds(start, now) <= 60 ==>
              (Degraded(start, now, 60, 20) <==> 1 <= ElapsedSeconds(start, now) <= 19)
  {
  }
}
