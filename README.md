# Cannon: a Dafny model of its sequential rules

Cannon is a load simulator. It starts 8 client threads. Each thread routes its requests to one of three simulated servers. Each server sleeps for a modelled latency. Once a second the main thread logs the number of completed requests as "N req/sec". This project models the deterministic rules under that machinery, and proves properties of them:

- the periodically degrading server (`FreakOutServer.response`): its degraded/healthy verdict, its delay, the flag it remembers, and the transition event it logs;
- the index each routing strategy computes (`RandomStrategy`, `AffinityStrategy`), with Java's 32-bit `int`, truncating `%` and `Math.abs` written out;
- the start-up decisions: the argument-count check, the strategy name, and the fixed topology;
- the reporter loop that turns counter readings into per-second samples and sleep requests.

Clock readings, the thread id's hash, the uniform draw and the metrics counter are parameters.

Modules: `Wrappers` (Option, Result), `JavaArith` (Java integer semantics), `FreakOut`, `Routing`, `Launcher`, `Reporter`.

Where the design intent and the code differ, the model follows the code:
- The usage line is `usage: ./Cannon (random|affinity)`, and the exit status passed to `System.exit` is -1.
- The random strategy does not guard against the scaled draw rounding up to the list size.
- The affinity index is not always in range (see Findings).
- The reporter's sleep is not guarded against a tick longer than a second. `Reporter.Report` models that loop as written: it ends after the first such tick. The guarded loop is `Reporter.ReportClamped`, kept beside it as the correction (see Findings).

## Model

| member | source | states |
|---|---|---|
| `JavaArith.Div` | src/main/java/com/idlerice/cannon/Cannon.java:116 | Java's `/` truncates toward zero: the quotient's sign follows the operands' signs |
| `JavaArith.Rem` | src/main/java/com/idlerice/cannon/Cannon.java:116 | Java's `%`: the remainder is smaller in magnitude than the divisor and has the sign of the dividend |
| `JavaArith.DivRem` | src/main/java/com/idlerice/cannon/Cannon.java:116 | the truncating quotient and remainder satisfy `a == (a/b)*b + a%b` |
| `JavaArith.Wrap32` | src/main/java/com/idlerice/cannon/Cannon.java:182 | 32-bit wrap-around: the result is congruent to the input modulo 2^32 and equals it when the input fits in an `int` |
| `JavaArith.JavaAbs` | src/main/java/com/idlerice/cannon/Cannon.java:182 | `Math.abs` on an `int` is the absolute value, except that `Integer.MIN_VALUE` maps to itself and stays negative |
| `JavaArith.Rem32` | src/main/java/com/idlerice/cannon/Cannon.java:182 | `%` on two `int`s always fits in an `int` and agrees with the unbounded remainder |
| `FreakOut.Degraded` | src/main/java/com/idlerice/cannon/Cannon.java:116-117 | the verdict `0 < mod < duration` on Java's remainder; it can hold only after the first whole second and only when the window is at least 2 seconds |
| `FreakOut.FreakOutServer.DegradedAt` | src/main/java/com/idlerice/cannon/Cannon.java:116-117 | the verdict for this server's start, period and window; it holds only once the clock's second is past the start second |
| `FreakOut.ElapsedSeconds` | src/main/java/com/idlerice/cannon/Cannon.java:116 | whole seconds between start and now, each clock truncated to seconds first; non-negative when `0 <= start <= now` |
| `FreakOut.Phase` | src/main/java/com/idlerice/cannon/Cannon.java:116 | the elapsed seconds reduced modulo the period lie strictly inside `(-abs(period), abs(period))`, and are non-negative when elapsed time is non-negative |
| `FreakOut.Delay` | src/main/java/com/idlerice/cannon/Cannon.java:127-129 | for `average >= 0` the delay lies in `[average, 100*average]`; for `average > 0` it exceeds the average exactly when degraded |
| `FreakOut.Event` | src/main/java/com/idlerice/cannon/Cannon.java:117-125 | "gonna freak out" iff the flag was false and the call is degraded; "not freaking out" iff the flag was true and the call is healthy; no event iff the verdict equals the flag |
| `FreakOut.FreakOutServer.constructor` | src/main/java/com/idlerice/cannon/Cannon.java:100-113 | the start time is the clock at construction, the parameters are stored, and the flag starts false |
| `FreakOut.FreakOutServer.Response` | src/main/java/com/idlerice/cannon/Cannon.java:115-130 | with a period of 0 the call fails (`ArithmeticException`) and leaves the flag alone; otherwise the flag becomes the degraded verdict for `now`, the delay is `average` or `100*average` by that verdict, and the event is the transition from the old flag; the final fields cannot change |
| `FreakOut.RepeatedVerdictIsSilent` | src/main/java/com/idlerice/cannon/Cannon.java:118-124 | two consecutive calls with the same verdict: the first logs an event iff it flips the flag, the second logs nothing and returns the same delay |
| `FreakOut.ElapsedFitsInLong` | src/main/java/com/idlerice/cannon/Cannon.java:116 | for any two `long` clock readings, the subtraction of seconds cannot overflow a `long` |
| `FreakOut.DegradedFromElapsed` | src/main/java/com/idlerice/cannon/Cannon.java:116-117 | with a positive period and non-negative elapsed time, degraded iff `0 < elapsed mod period < duration` |
| `FreakOut.NegativeElapsedIsHealthy` | src/main/java/com/idlerice/cannon/Cannon.java:116-117 | if the clock reads before the start second, the truncating remainder is non-positive and the server is healthy |
| `FreakOut.DegradedIsPeriodic` | src/main/java/com/idlerice/cannon/Cannon.java:116-129 | for a non-negative clock and non-negative elapsed time, adding `period*1000` ms gives the same verdict and the same delay |
| `FreakOut.StandardSchedule` | src/main/java/com/idlerice/cannon/Cannon.java:116-117 | with period 60 and duration 20 (the topology's values): degraded iff `1 <= elapsed mod 60 <= 19`; on seconds 0..60, second 0 is healthy, 1..19 degraded, 20..60 healthy |
| `Routing.Get` | src/main/java/com/idlerice/cannon/Cannon.java:183 | `List.get` returns the server at the index iff `0 <= index < n`, else fails with `IndexOutOfBounds(index)` |
| `Routing.AffinityIndex` | src/main/java/com/idlerice/cannon/Cannon.java:182 | as written: for every hash but `Integer.MIN_VALUE` the index is `abs(h) mod n` and lies in `[0, n)`; for `Integer.MIN_VALUE` it is `MIN_VALUE % n`, which is not positive |
| `Routing.SafeAffinityIndex` | src/main/java/com/idlerice/cannon/Cannon.java:182 | corrected: the index is always `abs(h) mod n` in `[0, n)`, and equals the as-written index for every other hash |
| `Routing.RandomIndex` | src/main/java/com/idlerice/cannon/Cannon.java:161 | over the reals, `floor(u*n)` for `0 <= u < 1` lies in `[0, n)` when `n > 0` |
| `Routing.Request` | src/main/java/com/idlerice/cannon/Cannon.java:160-183 | a request as written, by strategy; when it reaches a server, that server's index is below `n` |
| `Routing.SafeRequest` | src/main/java/com/idlerice/cannon/Cannon.java:180-183 | a request with the corrected affinity index reaches a server iff the list is non-empty |
| `Routing.RequestSucceeds` | src/main/java/com/idlerice/cannon/Cannon.java:160-183 | over a non-empty list, the random strategy always reaches a server; the affinity strategy does iff the hash is not `Integer.MIN_VALUE` or `n` divides 2^31 |
| `Routing.AffinityIsSticky` | src/main/java/com/idlerice/cannon/Cannon.java:180-183 | the affinity route depends only on the hash and `n`: the same thread routes to the same outcome on every call, whatever the draw |
| `Routing.MinValueHashFails` | src/main/java/com/idlerice/cannon/Cannon.java:182 | with three servers, the hash `Integer.MIN_VALUE` gives index -2 and `List.get` throws; the corrected request reaches server 2 |
| `Routing.SafeRequestAgrees` | src/main/java/com/idlerice/cannon/Cannon.java:182 | the corrected request equals the as-written one for every hash other than `Integer.MIN_VALUE` |
| `Launcher.Topology` | src/main/java/com/idlerice/cannon/Cannon.java:188-191 | three servers: two exponential, then one degrading server whose window is shorter than its period |
| `Launcher.LowerChar` | src/main/java/com/idlerice/cannon/Cannon.java:196 | the result is never an upper-case ASCII letter; it is the input or the input's lower-case letter |
| `Launcher.ToLower` | src/main/java/com/idlerice/cannon/Cannon.java:196 | lower-casing keeps the length and lower-cases each character in place |
| `Launcher.ToLowerIdempotent` | src/main/java/com/idlerice/cannon/Cannon.java:196 | lower-casing twice equals lower-casing once |
| `Launcher.SelectStrategy` | src/main/java/com/idlerice/cannon/Cannon.java:195-202 | the random strategy iff the name equals `random` ignoring ASCII case; every other name selects affinity |
| `Launcher.SelectionExamples` | src/main/java/com/idlerice/cannon/Cannon.java:196-202 | `random` and `RaNdOm` select random; `affinity`, the empty name, `randm` and `random ` select affinity |
| `Launcher.LaunchWith` | src/main/java/com/idlerice/cannon/Cannon.java:243-253 | the simulator starts iff there is exactly one argument, with the strategy chosen from it and the fixed topology; otherwise the usage line is printed and the exit status is -1 |
| `Reporter.Deltas` | src/main/java/com/idlerice/cannon/Cannon.java:226-231 | one sample per counter reading |
| `Reporter.DeltasTelescope` | src/main/java/com/idlerice/cannon/Cannon.java:226-231 | the samples add up to the last reading, so no request is lost or counted twice |
| `Reporter.DeltasNonNegative` | src/main/java/com/idlerice/cannon/Cannon.java:229-230 | a non-negative, non-decreasing counter gives no negative sample |
| `Reporter.SleepRequest` | src/main/java/com/idlerice/cannon/Cannon.java:233 | as written: the time spent in the tick plus the sleep requested is exactly one second |
| `Reporter.SlowTickIsRejected` | src/main/java/com/idlerice/cannon/Cannon.java:233 | a tick longer than 1000 ms asks `Thread.sleep` for a negative time, which it rejects |
| `Reporter.ClampedSleep` | src/main/java/com/idlerice/cannon/Cannon.java:233 | corrected: the sleep is never negative, equals the as-written sleep for ticks up to 1000 ms, and each tick lasts `max(1000, spent)` ms |
| `Reporter.SleepAccepts` | src/main/java/com/idlerice/cannon/Cannon.java:233 | `Thread.sleep` accepts a request iff it is not negative; otherwise it throws `IllegalArgumentException` |
| `Reporter.FirstRejected` | src/main/java/com/idlerice/cannon/Cannon.java:232-237 | the first tick whose sleep request is rejected (or the number of ticks if none is): every earlier request is accepted and that one is not |
| `Reporter.FirstRejectedAt` | src/main/java/com/idlerice/cannon/Cannon.java:232-237 | a tick whose request is rejected after only accepted ones is exactly `FirstRejected` |
| `Reporter.Logged` | src/main/java/com/idlerice/cannon/Cannon.java:229-237 | the number of samples the loop logs: all ticks, or up to and including the rejected one, which logs its sample before it sleeps |
| `Reporter.SlowFirstTickEndsLoop` | src/main/java/com/idlerice/cannon/Cannon.java:233 | with tick times 1001 ms and 0 ms, the first tick is rejected and one sample is logged |
| `Reporter.Report` | src/main/java/com/idlerice/cannon/Cannon.java:226-238 | the loop as written: the first `Logged` samples equal `Deltas` of the readings, starting from a count of 0; each tick asks to sleep `1000 - spent`; the loop ends with the exception iff some request is negative |
| `Reporter.SlowTickExample` | src/main/java/com/idlerice/cannon/Cannon.java:226-238 | readings 5 and 7 with a first tick of 1001 ms: the loop logs 5 and then ends with the exception |
| `Reporter.ReportClamped` | src/main/java/com/idlerice/cannon/Cannon.java:226-238 | corrected loop: every tick logs its sample, so the samples are exactly `Deltas` of the readings, and each tick asks for `ClampedSleep` of its time |
| `Reporter.LoopsAgreeUntilRejected` | src/main/java/com/idlerice/cannon/Cannon.java:233 | the corrected loop asks for the same sleep as the loop as written on every tick before the first rejected one |

## Left out

- Worker threads, daemon flags and the unbounded client loop (Cannon.java:206-224). Their point is concurrency, so the unsynchronised sharing of the `freakingOut` flag between threads is not modelled either. `Response` is modelled as one call at a time.
- `Server.request`, `Thread.sleep` and its interrupt handling (Cannon.java:41-50, 232-237). These are operating-system timing. The reporter's interrupt is modelled as the end of the input readings. The reporter loops return the arguments they pass to `Thread.sleep` as a sequence; the sleeping itself is not modelled.
- The metrics `Timer` (Cannon.java:29, 42, 48). It is a foreign library; its count is the input sequence of readings.
- The Guava `goodFastHash` of the thread id (Cannon.java:171, 181). It is a foreign hash; its `asInt()` is an arbitrary `int32` parameter.
- `ExpovariateServer.response` and `UniformServer.response` (Cannon.java:64-66, 85-87). They are `java.util.Random` doubles, `Math.log` and `Math.round`; the model keeps only their parameters, in `Launcher.Topology`.
- Routing.RandomIndex: computed over the reals, not IEEE doubles. Rounding of `nextDouble() * size` is not modelled.
- Launcher.ToLower: lower-cases ASCII letters only, not the full locale-sensitive Unicode mapping of `String.toLowerCase()`.
- Logging, `toString` and `System.exit`. Log events are returned values (`Transition`, the reporter's samples); the exit is the `Usage` outcome with its status.
- `long` arithmetic is unbounded. `FreakOut.ElapsedFitsInLong` shows the clock subtraction cannot overflow. `100L * average` of an `int` cannot overflow either. The counter difference is left unbounded.
- FreakOut.DegradedIsPeriodic: requires a non-negative clock reading as well as non-negative elapsed time. With a negative `now`, the truncating `now/1000` does not shift by exactly `period` (for example `now = -500`, `start = -2000`, period 60 and window 2: elapsed second 2 is healthy, while 60 s later the phase is 1 and the server is degraded).

## Findings

| source | as written | input that shows it | evidently intended | confidence | as-written member | corrected member |
|---|---|---|---|---|---|---|
| src/main/java/com/idlerice/cannon/Cannon.java:182 | `Math.abs(hc.asInt()) % servers.size()` | hash `Integer.MIN_VALUE` with 3 servers gives index -2, and `servers.get(-2)` throws, ending that worker thread | an index in `[0, n)` for every hash, e.g. `Math.abs(h % n)` | not executed | `Routing.MinValueHashFails` | `Routing.SafeAffinityIndex` |
| src/main/java/com/idlerice/cannon/Cannon.java:233 | `Thread.sleep(1000L - (System.currentTimeMillis() - t))` | a tick that spends 1001 ms requests a sleep of -1 ms; `Thread.sleep` throws `IllegalArgumentException`, which is not caught, and the reporter loop ends | sleep the rest of the second, or not at all once it has passed, and keep looping (`Reporter.ReportClamped`) | not executed | `Reporter.SlowTickExample` | `Reporter.ClampedSleep` |
