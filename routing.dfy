/**
 * The two routing strategies. Each turns an input it cannot control (a
 * uniform draw for the random strategy, the thread id's hash for the
 * affinity strategy) into an index into the server list and fetches that
 * server with `List.get`. The draw and the hash are parameters.
 */
module Routing {
  import opened Wrappers
  import opened JavaArith

  datatype Strategy = Random | Affinity

  /** The exceptions an index computation or `List.get` can throw. */
  datatype RouteError = DivisionByZero | IndexOutOfBounds(index: int)

  /** `servers.get(index)` on a list of `n` servers. */
  function Get(index: int, n: nat): (r: Result<nat, RouteError>)
    ensures r.Success? <==> 0 <= index < n
    ensures r.Success? ==> r.value == index
    ensures r.Failure? ==> r.error == IndexOutOfBounds(index)
  {
    if 0 <= index < n then Success(index) else Failure(IndexOutOfBounds(index))
  }

  /**
   * `Math.abs(h) % n` as written: in range for every hash but
   * `Integer.MIN_VALUE`, whose absolute value is itself.
   */
  function AffinityIndex(h: int32, n: int32): (i: int32)
    requires n > 0
    ensures h as int != IntMin ==> 0 <= i < n && i as int == Abs(h as int) % n as int
    ensures h as int == IntMin ==> i <= 0 && i as int == Rem(IntMin, n as int)
  {
    Rem32(JavaAbs(h), n)
  }

  /** `Math.abs(h % n)`: the index the affinity strategy evidently intends. */
  function SafeAffinityIndex(h: int32, n: int32): (i: int32)
    requires n > 0
    ensures 0 <= i < n
    ensures i as int == Abs(h as int) % n as int
    ensures h as int != IntMin ==> i == AffinityIndex(h, n)
  {
    JavaAbs(Rem32(h, n))
  }

  /** `(int) Math.floor(u * n)` over the reals, for a draw `0 <= u < 1`. */
  function RandomIndex(u: real, n: int32): (i: int)
    requires 0.0 <= u < 1.0 && n >= 0
    ensures n > 0 ==> 0 <= i < n as int
    ensures n == 0 ==> i == 0
  {
    var size: int := n as int;
    ScaledDrawBelow(u, size);
    (u * size as real).Floor
  }

  /** The floor of `u * size` lies in `[0, size)`. */
  lemma ScaledDrawBelow(u: real, size: int)
    requires 0.0 <= u < 1.0 && size >= 0
    ensures size > 0 ==> 0 <= (u * size as real).Floor < size
    ensures size == 0 ==> (u * size as real).Floor == 0
  {
    var m := size as real;
    var x := u * m;
    var gap := 1.0 - u;
    assert m - x == gap * m;
    assert 0.0 <= gap * m;
    assert 0.0 <= x <= m;
    if size > 0 {
      assert 0.0 < gap * m;
    }
    var f := x.Floor;
    assert f as real <= x < f as real + 1.0;
  }

  /** One `request()` of a strategy over a list of `n` servers, as written; the result is the server called. */
  function Request(strategy: Strategy, u: real, h: int32, n: int32): (r: Result<nat, RouteError>)
    requires 0.0 <= u < 1.0 && n >= 0
    ensures r.Success? ==> r.value < n as int
  {
    match strategy
    case Random => Get(RandomIndex(u, n), n as nat)
    case Affinity =>
      if n == 0 then Failure(DivisionByZero) else Get(AffinityIndex(h, n) as int, n as nat)
  }

  /** The same request with the affinity index computed as intended. */
  function SafeRequest(strategy: Strategy, u: real, h: int32, n: int32): (r: Result<nat, RouteError>)
    requires 0.0 <= u < 1.0 && n >= 0
    ensures r.Success? <==> n > 0
    ensures r.Success? ==> r.value < n as int
  {
    match strategy
    case Random => Get(RandomIndex(u, n), n as nat)
    case Affinity =>
      if n == 0 then Failure(DivisionByZero) else Get(SafeAffinityIndex(h, n) as int, n as nat)
  }

  /**
   * Over a non-empty list, the random strategy always reaches a server; the
   * affinity strategy does unless the hash is `Integer.MIN_VALUE` and `n`
   * does not divide 2^31.
   */
  lemma RequestSucceeds(strategy: Strategy, u: real, h: int32, n: int32)
    requires 0.0 <= u < 1.0 && n > 0
    ensures strategy == Random ==> Request(strategy, u, h, n).Success?
    ensures strategy == Affinity ==>
              (Request(strategy, u, h, n).Success? <==> h as int != IntMin || 0x8000_0000 % n as int == 0)
  {
  }

  /**
   * Affinity: the route does not depend on the draw, so a worker, whose
   * hash is fixed, is routed the same way on every call.
   */
  lemma AffinityIsSticky(h: int32, u1: real, u2: real, n: int32)
    requires 0.0 <= u1 < 1.0 && 0.0 <= u2 < 1.0 && n > 0
    ensures Request(Affinity, u1, h, n) == Request(Affinity, u2, h, n)
  {
  }

  /** With the three-server topology, the hash `Integer.MIN_VALUE` gives index -2 and `List.get` throws. */
  lemma MinValueHashFails()
    ensures AffinityIndex(IntMin as int32, 3) == -2
    ensures Request(Affinity, 0.0, IntMin as int32, 3) == Failure(IndexOutOfBounds(-2))
    ensures SafeRequest(Affinity, 0.0, IntMin as int32, 3) == Success(2)
  {
  }

  /** The correction changes nothing for any other hash. */
  lemma SafeRequestAgrees(strategy: Strategy, u: real, h: int32, n: int32)
    requires 0.0 <= u < 1.0 && n >= 0 && h as int != IntMin
    ensures SafeRequest(strategy, u, h, n) == Request(strategy, u, h, n)
  {
  }
}
