/**
 * The reconnect schedule of the bridge's outer loop: after every failed pass it sleeps for
 * the current backoff and doubles it, up to a ceiling; a successful connect resets it.
 */
module Backoff {

  const Initial: nat := 2
  const Ceiling: nat := 30

  /** `min(backoff * 2, 30)`. */
  function Next(b: nat): (r: nat)
    ensures r <= Ceiling && r <= 2 * b
    ensures r == 2 * b || r == Ceiling
  {
    if b * 2 < Ceiling then b * 2 else Ceiling
  }

  /** How one pass of the outer loop ended; every pass ends in an error and a sleep. */
  datatype Pass =
    | Refused   // the connection could not be made
    | Dropped   // connected (which resets the backoff), then the session failed

  /** The backoff at the moment of the sleep that ends the pass. */
  function Delay(b: nat, p: Pass): nat {
    if p.Dropped? then Initial else b
  }

  /** The sleeps of a run of passes, starting from backoff `b`. */
  function Delays(b: nat, ps: seq<Pass>): (ds: seq<nat>)
    ensures |ds| == |ps|
    ensures forall i :: 0 <= i < |ps| && ps[i] == Dropped ==> ds[i] == Initial
    decreases |ps|
  {
    if ps == [] then [] else [Delay(b, ps[0])] + Delays(Next(Delay(b, ps[0])), ps[1..])
  }

  predicate InRange(b: nat) {
    Initial <= b <= Ceiling
  }

  /** The backoff stays between 2 and 30 seconds. */
  lemma NextInRange(b: nat)
    requires InRange(b)
    ensures InRange(Next(b)) && Next(b) >= b
  {
  }

  /** Every sleep lasts between 2 and 30 seconds, starting from any backoff in that range. */
  lemma {:induction false} DelaysInRange(b: nat, ps: seq<Pass>)
    requires InRange(b)
    ensures forall i :: 0 <= i < |ps| ==> InRange(Delays(b, ps)[i])
    decreases |ps|
  {
    if ps != [] {
      var d := Delay(b, ps[0]);
      NextInRange(d);
      DelaysInRange(Next(d), ps[1..]);
      var ds := Delays(b, ps);
      forall i | 1 <= i < |ps| ensures InRange(ds[i]) {
        assert ds[i] == Delays(Next(d), ps[1..])[i - 1];
      }
    }
  }

  function Pow2(n: nat): (r: nat)
    ensures r >= 1
  {
    if n == 0 then 1 else 2 * Pow2(n - 1)
  }

  function Min(a: nat, b: nat): nat {
    if a <= b then a else b
  }

  lemma NextPow2(j: nat)
    ensures Next(Min(Pow2(j), Ceiling)) == Min(Pow2(j + 1), Ceiling)
  {
  }

  /**
   * Consecutive refusals double the sleep: from backoff min(2^j, 30), the i-th refusal
   * sleeps min(2^(j+i), 30) seconds.
   */
  lemma {:induction false} RefusedDelays(j: nat, ps: seq<Pass>)
    requires forall i :: 0 <= i < |ps| ==> ps[i] == Refused
    ensures forall i :: 0 <= i < |ps| ==> Delays(Min(Pow2(j), Ceiling), ps)[i] == Min(Pow2(j + i), Ceiling)
    decreases |ps|
  {
    if ps != [] {
      NextPow2(j);
      RefusedDelays(j + 1, ps[1..]);
      var ds := Delays(Min(Pow2(j), Ceiling), ps);
      forall i | 1 <= i < |ps| ensures ds[i] == Min(Pow2(j + i), Ceiling) {
        assert ds[i] == Delays(Min(Pow2(j + 1), Ceiling), ps[1..])[i - 1];
      }
    }
  }

  /**
   * From start-up, failing to connect n times in a row sleeps 2, 4, 8, 16, then 30
   * seconds from then on.
   */
  lemma StartupDelays(ps: seq<Pass>)
    requires forall i :: 0 <= i < |ps| ==> ps[i] == Refused
    ensures forall i :: 0 <= i < |ps| ==> Delays(Initial, ps)[i] == Min(Pow2(i + 1), Ceiling)
  {
    RefusedDelays(1, ps);
    assert Min(Pow2(1), Ceiling) == Initial;
  }

  /** A pass that connected sleeps the initial 2 seconds, whatever the backoff was before. */
  lemma DroppedResets(b: nat, ps: seq<Pass>)
    requires ps != [] && ps[0] == Dropped
    ensures Delays(b, ps)[0] == Initial
    ensures Delays(b, ps)[1..] == Delays(2 * Initial, ps[1..])
  {
  }
}
