/** Tallies: the `d[k] = d.get(k, 0) + 1` idiom over a stream of string keys, and sums of
    tallied counts. */
module Tallies {

  /** `d.get(k, 0)` */
  function Get(m: map<string, nat>, k: string): nat {
    if k in m then m[k] else 0
  }

  /** The dictionary built by counting `xs` from left to right. */
  function Tally(xs: seq<string>): map<string, nat> {
    if xs == [] then map[]
    else
      var m := Tally(xs[..|xs| - 1]);
      var x := xs[|xs| - 1];
      m[x := Get(m, x) + 1]
  }

  /** The tallied keys are exactly the keys of the stream. */
  lemma {:induction false} TallyKeys(xs: seq<string>)
    ensures forall k :: k in Tally(xs) <==> k in xs
  {
    if xs != [] {
      TallyKeys(xs[..|xs| - 1]);
      assert xs == xs[..|xs| - 1] + [xs[|xs| - 1]];
    }
  }

  lemma TallyHas(xs: seq<string>, k: string)
    requires k in xs
    ensures k in Tally(xs)
  {
    TallyKeys(xs);
  }

  lemma TallyAppend(xs: seq<string>, x: string)
    ensures Tally(xs + [x]) == Tally(xs)[x := Get(Tally(xs), x) + 1]
  {
    assert (xs + [x])[..|xs|] == xs;
  }

  /** One more item of `words` counted onto the tally of `seen` and the items before it. */
  lemma TallyStep(seen: seq<string>, words: seq<string>, j: nat)
    requires j < |words|
    ensures Tally(seen + words[..j + 1])
         == Tally(seen + words[..j])[words[j] := Get(Tally(seen + words[..j]), words[j]) + 1]
  {
    SnocSlice(seen, words, j);
    TallyAppend(seen + words[..j], words[j]);
  }

  lemma SnocSlice<T>(a: seq<T>, w: seq<T>, j: nat)
    requires j < |w|
    ensures a + w[..j + 1] == (a + w[..j]) + [w[j]]
  {
    assert w[..j + 1] == w[..j] + [w[j]];
  }

  /** Every tallied key is counted exactly as often as it occurs in the stream. */
  lemma {:induction false} TallyCounts(xs: seq<string>, k: string)
    ensures Get(Tally(xs), k) == multiset(xs)[k]
  {
    if xs != [] {
      var ys := xs[..|xs| - 1];
      TallyCounts(ys, k);
      assert xs == ys + [xs[|xs| - 1]];
    }
  }

  /** Sum of `Get(m, k)` over a sequence of keys. */
  function SumOver(ks: seq<string>, m: map<string, nat>): nat {
    if ks == [] then 0 else Get(m, ks[0]) + SumOver(ks[1..], m)
  }

  predicate Distinct(ks: seq<string>) {
    forall i, j :: 0 <= i < j < |ks| ==> ks[i] != ks[j]
  }

  lemma {:induction false} SumOverIncrement(ks: seq<string>, m: map<string, nat>, x: string)
    requires Distinct(ks)
    ensures SumOver(ks, m[x := Get(m, x) + 1]) == SumOver(ks, m) + (if x in ks then 1 else 0)
  {
    if ks != [] {
      SumOverIncrement(ks[1..], m, x);
      if ks[0] == x {
        assert x !in ks[1..] by {
          forall i | 0 <= i < |ks[1..]| ensures ks[1..][i] != x {
            assert ks[1..][i] == ks[i + 1];
          }
        }
      }
    }
  }

  /** Summing a tally over any duplicate-free list of keys covering the stream gives
      the length of the stream. */
  lemma {:induction false} TallySum(xs: seq<string>, ks: seq<string>)
    requires Distinct(ks)
    requires forall x :: x in xs ==> x in ks
    ensures SumOver(ks, Tally(xs)) == |xs|
  {
    if xs == [] {
      SumOverEmpty(ks);
    } else {
      var ys := xs[..|xs| - 1];
      var x := xs[|xs| - 1];
      TallySum(ys, ks);
      SumOverIncrement(ks, Tally(ys), x);
    }
  }

  lemma {:induction false} SumOverEmpty(ks: seq<string>)
    ensures SumOver(ks, map[]) == 0
  {
    if ks != [] { SumOverEmpty(ks[1..]); }
  }
}
