/** `sorted(d.items())` for dictionaries keyed by strings: the keys in strictly
    ascending order of Python's string comparison. */
module Sorting {
  import opened PyStrings

  predicate StrictlyAscending(ws: seq<string>) {
    forall i, j :: 0 <= i < j < |ws| ==> StrLess(ws[i], ws[j])
  }

  /** Every finite non-empty set of strings has a least element. */
  lemma {:induction false} LeastExists(keys: set<string>)
    requires keys != {}
    ensures exists m :: m in keys && forall y :: y in keys && y != m ==> StrLess(m, y)
    decreases keys
  {
    var x :| x in keys;
    var rest := keys - {x};
    if rest != {} {
      LeastExists(rest);
      var m :| m in rest && forall y :: y in rest && y != m ==> StrLess(m, y);
      if StrLess(m, x) {
        forall y | y in keys && y != m ensures StrLess(m, y) {
          if y == x {
          } else {
            assert y in rest;
          }
        }
      } else {
        StrLessTotal(m, x);
        forall y | y in keys && y != x ensures StrLess(x, y) {
          if y != m {
            assert y in rest;
            StrLessTransitive(x, m, y);
          }
        }
      }
    } else {
      assert keys == {x};
    }
  }

  /** Two strictly ascending sequences with the same elements are the same sequence:
      the sorted order of a set of keys is unique. */
  lemma {:induction false} AscendingUnique(a: seq<string>, b: seq<string>)
    requires StrictlyAscending(a) && StrictlyAscending(b)
    requires forall k :: k in a <==> k in b
    ensures a == b
  {
    if a != [] && b != [] {
      assert a[0] in b;
      assert b[0] in a;
      if a[0] != b[0] {
        var i :| 0 <= i < |a| && a[i] == b[0];
        var j :| 0 <= j < |b| && b[j] == a[0];
        assert StrLess(a[0], b[0]);
        assert StrLess(b[0], a[0]);
        StrLessTransitive(a[0], b[0], a[0]);
        StrLessIrreflexive(a[0]);
      }
      forall k ensures k in a[1..] <==> k in b[1..] {
        if k in a[1..] {
          var i :| 0 <= i < |a[1..]| && a[1..][i] == k;
          assert StrLess(a[0], a[i + 1]);
          StrLessIrreflexive(k);
          assert k in b;
        }
        if k in b[1..] {
          var i :| 0 <= i < |b[1..]| && b[1..][i] == k;
          assert StrLess(b[0], b[i + 1]);
          StrLessIrreflexive(k);
          assert k in a;
        }
      }
      AscendingUnique(a[1..], b[1..]);
      assert a == [a[0]] + a[1..] && b == [b[0]] + b[1..];
    } else {
      SameElementsEmpty(a, b);
    }
  }

  lemma SameElementsEmpty(a: seq<string>, b: seq<string>)
    requires forall k :: k in a <==> k in b
    ensures a == [] <==> b == []
  {
    if a != [] { assert a[0] in b; }
    if b != [] { assert b[0] in a; }
  }

  lemma {:induction false} AscendingExists(keys: set<string>)
    ensures exists ws :: StrictlyAscending(ws) && forall k :: k in ws <==> k in keys
    decreases keys
  {
    if keys == {} {
      assert StrictlyAscending([]);
    } else {
      LeastExists(keys);
      var m :| m in keys && forall y :: y in keys && y != m ==> StrLess(m, y);
      AscendingExists(keys - {m});
      var ws :| StrictlyAscending(ws) && forall k :: k in ws <==> k in keys - {m};
      var r := [m] + ws;
      forall i, j | 0 <= i < j < |r| ensures StrLess(r[i], r[j]) {
        if i == 0 {
          assert r[j] == ws[j - 1] && r[j] in keys - {m};
        } else {
          assert r[i] == ws[i - 1] && r[j] == ws[j - 1];
        }
      }
      forall k ensures k in r <==> k in keys {
        assert k in r <==> k == m || k in ws;
      }
      assert StrictlyAscending(r);
    }
  }

  /** The keys of a set in ascending order (the specification of `sorted`). */
  ghost function Ascending(keys: set<string>): (ws: seq<string>)
    ensures StrictlyAscending(ws)
    ensures forall k :: k in ws <==> k in keys
  {
    AscendingExists(keys);
    var ws :| StrictlyAscending(ws) && forall k :: k in ws <==> k in keys;
    ws
  }

  lemma AscendingLength(keys: set<string>)
    ensures |Ascending(keys)| == |keys|
  {
    var ws := Ascending(keys);
    AscendingDistinct(ws);
    DistinctCard(ws, keys);
  }

  lemma AscendingDistinct(ws: seq<string>)
    requires StrictlyAscending(ws)
    ensures forall i, j :: 0 <= i < j < |ws| ==> ws[i] != ws[j]
  {
    forall i, j | 0 <= i < j < |ws| ensures ws[i] != ws[j] {
      if ws[i] == ws[j] {
        StrLessIrreflexive(ws[i]);
      }
    }
  }

  lemma {:induction false} DistinctCard(ws: seq<string>, keys: set<string>)
    requires forall i, j :: 0 <= i < j < |ws| ==> ws[i] != ws[j]
    requires forall k :: k in ws <==> k in keys
    ensures |ws| == |keys|
    decreases |ws|
  {
    if ws != [] {
      var last := ws[|ws| - 1];
      var init := ws[..|ws| - 1];
      forall k ensures k in init <==> k in keys - {last} {
        if k in init {
          var i :| 0 <= i < |init| && init[i] == k;
          assert ws[i] == k;
        }
        if k in keys - {last} {
          assert k in ws;
          var i :| 0 <= i < |ws| && ws[i] == k;
          assert i < |ws| - 1;
          assert init[i] == k;
        }
      }
      DistinctCard(init, keys - {last});
    } else {
      assert forall k :: k !in keys;
      assert keys == {};
    }
  }

  /** `sorted(keys)`: repeatedly takes out the least remaining key. */
  method SortKeys(keys: set<string>) returns (ws: seq<string>)
    ensures ws == Ascending(keys)
  {
    ws := [];
    var rest := keys;
    while rest != {}
      invariant rest <= keys
      invariant forall k :: k in keys <==> k in ws || k in rest
      invariant forall k :: k in ws ==> k !in rest
      invariant StrictlyAscending(ws)
      invariant forall i, k :: 0 <= i < |ws| && k in rest ==> StrLess(ws[i], k)
      decreases rest
    {
      LeastExists(rest);
      var m :| m in rest && forall y :: y in rest && y != m ==> StrLess(m, y);
      ws := ws + [m];
      rest := rest - {m};
    }
    AscendingUnique(ws, Ascending(keys));
  }
}
