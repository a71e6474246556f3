/**
 * Start-up: the argument-count check of `main(String[])`, the choice of
 * strategy from its one argument, and the fixed three-server topology.
 */
module Launcher {
  import opened Routing

  /** The latency models a server can have, with their parameters. */
  datatype ServerModel =
    | Expovariate(average: int)
    | Uniform(average: int)
    | FreakOut(average: int, period: int, duration: int)

  /** What the program does with its command line. */
  datatype Launch =
    | Usage(message: string, exitStatus: int)
    | Start(strategy: Strategy, servers: seq<ServerModel>)

  const UsageMessage: string := "usage: ./Cannon (random|affinity)"

  /** The servers every run builds, in list order. */
  function Topology(): (s: seq<ServerModel>)
    ensures |s| == 3
    ensures s[0].Expovariate? && s[1].Expovariate? && s[2].FreakOut?
    ensures s[2].duration < s[2].period
    ensures s[2] == FreakOut(10, 60, 20)
  {
    [Expovariate(10), Expovariate(11), FreakOut(10, 60, 20)]
  }

  predicate IsUpper(c: char) { 'A' <= c <= 'Z' }

  /** Lower-casing of one character, over ASCII letters only. */
  function LowerChar(c: char): (d: char)
    ensures !IsUpper(d)
    ensures d == c || (IsUpper(c) && d as int - c as int == 32)
  {
    if IsUpper(c) then (c as int + 32) as char else c
  }

  /** `String.toLowerCase()`, restricted to ASCII. */
  function ToLower(s: string): (t: string)
    ensures |t| == |s|
    ensures forall i :: 0 <= i < |s| ==> t[i] == LowerChar(s[i])
  {
    if s == [] then [] else [LowerChar(s[0])] + ToLower(s[1..])
  }

  /** Two strings are equal once both are lower-cased, compared character by character. */
  predicate EqualsIgnoreCase(a: string, b: string)
  {
    |a| == |b| && forall i :: 0 <= i < |a| ==> LowerChar(a[i]) == LowerChar(b[i])
  }

  /** `random`, in any letter case, picks the random strategy; every other name picks affinity. */
  function SelectStrategy(name: string): (s: Strategy)
    ensures s == Random <==> EqualsIgnoreCase(name, "random")
  {
    if ToLower(name) == "random" then Random else Affinity
  }

  /** `main(String[])`: exactly one argument starts the simulator, anything else prints the usage line and exits with -1. */
  function LaunchWith(args: seq<string>): (l: Launch)
    ensures l.Start? <==> |args| == 1
    ensures l.Start? ==> l.strategy == SelectStrategy(args[0]) && l.servers == Topology()
    ensures l.Usage? ==> l.message == UsageMessage && l.exitStatus == -1
  {
    if |args| != 1 then Usage(UsageMessage, -1)
    else Start(SelectStrategy(args[0]), Topology())
  }

  /** Lower-casing twice is lower-casing once. */
  lemma ToLowerIdempotent(s: string)
    ensures ToLower(ToLower(s)) == ToLower(s)
  {
  }

  /** Names in mixed case, the empty name and near-misses. */
  lemma SelectionExamples()
    ensures SelectStrategy("random") == Random
    ensures SelectStrategy("RaNdOm") == Random
    ensures SelectStrategy("affinity") == Affinity
    ensures SelectStrategy("") == Affinity
    ensures SelectStrategy("randm") == Affinity
    ensures SelectStrategy("random ") == Affinity
  {
  }
}
