/** Swift's `shuffled()`, with its random source made a parameter: a stream of
    draws picks, one after another, which remaining element comes next. */
module Shuffle {

  function RemoveAt<T>(s: seq<T>, k: nat): (r: seq<T>)
    requires k < |s|
    ensures |r| == |s| - 1
    ensures multiset(r) == multiset(s) - multiset{s[k]}
  {
    assert s == s[..k] + [s[k]] + s[k+1..];
    s[..k] + s[k+1..]
  }

  /** The draw at the head of the stream, or 0 once the stream is exhausted. */
  function Head(draws: seq<nat>): nat {
    if |draws| > 0 then draws[0] else 0
  }

  function Tail(draws: seq<nat>): seq<nat> {
    if |draws| > 0 then draws[1..] else []
  }

  /** A random reordering of `s`: every stream of draws yields a permutation. */
  function Shuffled<T>(s: seq<T>, draws: seq<nat>): (r: seq<T>)
    ensures multiset(r) == multiset(s)
    decreases |s|
  {
    if |s| == 0 then []
    else
      var k := Head(draws) % |s|;
      assert multiset(s) == multiset(RemoveAt(s, k)) + multiset{s[k]};
      [s[k]] + Shuffled(RemoveAt(s, k), Tail(draws))
  }

  lemma SmallModulus(k: nat, n: nat)
    requires k < n
    ensures k % n == k
  {
  }

  /** No order is privileged: every permutation of `s` is the outcome of some
      stream of draws. */
  lemma {:induction false} EveryOrderReachable<T>(s: seq<T>, t: seq<T>) returns (draws: seq<nat>)
    requires multiset(s) == multiset(t)
    ensures Shuffled(s, draws) == t
    decreases |s|
  {
    assert |s| == |multiset(s)| == |multiset(t)| == |t|;
    if |s| == 0 {
      draws := [];
    } else {
      assert t[0] in multiset(s);
      var k: nat :| k < |s| && s[k] == t[0];
      assert t == [t[0]] + t[1..];
      assert multiset(t[1..]) == multiset(t) - multiset{t[0]};
      var s' := RemoveAt(s, k);
      assert multiset(s') == multiset(t[1..]);
      var rest := EveryOrderReachable(s', t[1..]);
      draws := [k] + rest;
      SmallModulus(k, |s|);
      assert Tail(draws) == rest;
      calc {
        Shuffled(s, draws);
        [s[k]] + Shuffled(s', rest);
        [t[0]] + t[1..];
      }
    }
  }
}
