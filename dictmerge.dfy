/** Homework_4 `process_dicts_list` (and the same steps inline in the Homework_2 script):
    merge a list of dicts keeping, per key, the maximum value and the 1-based index of the
    first dict holding it, then rename the keys found in more than one dict to
    `key_index`. A Python dict is modelled as its item list, in insertion order. */
module DictMerge {
  import opened Wrappers
  import opened PyStrings

  /** A dict as its items in insertion order; the keys of a dict are distinct. */
  type Dict<V> = seq<(string, V)>

  predicate UniqueKeys<V(==)>(d: Dict<V>) {
    forall i, j :: 0 <= i < j < |d| ==> d[i].0 != d[j].0
  }

  /** The keys of a dict, in order. */
  function Keys<V>(d: Dict<V>): (ks: seq<string>)
    ensures |ks| == |d| && forall i :: 0 <= i < |d| ==> ks[i] == d[i].0
  {
    if d == [] then [] else [d[0].0] + Keys(d[1..])
  }

  /** `key in d` */
  predicate HasKey<V(==)>(d: Dict<V>, key: string) {
    Lookup(d, key).Some?
  }

  /** `d.get(key)` */
  function Lookup<V(==)>(d: Dict<V>, key: string): Option<V> {
    if d == [] then None
    else if d[0].0 == key then Some(d[0].1)
    else Lookup(d[1..], key)
  }

  /** A key is found exactly when it is one of the dict's keys. */
  lemma {:induction false} LookupKeys<V>(d: Dict<V>, key: string)
    ensures Lookup(d, key).Some? <==> key in Keys(d)
  {
    if d != [] {
      LookupKeys(d[1..], key);
      assert Keys(d) == [d[0].0] + Keys(d[1..]);
    }
  }

  /** `d[key] = value`: an existing key keeps its place, a new key goes last. */
  function Assign<V(==)>(d: Dict<V>, key: string, value: V): Dict<V> {
    if d == [] then [(key, value)]
    else if d[0].0 == key then [(key, value)] + d[1..]
    else
      [d[0]] + Assign(d[1..], key, value)
  }

  /** After `d[key] = value` the key maps to the value and every other key is as before;
      an existing key keeps its place and a new one goes last. */
  lemma {:induction false} AssignSpec<V>(d: Dict<V>, key: string, value: V)
    ensures var r := Assign(d, key, value);
      && Lookup(r, key) == Some(value)
      && (forall k :: k != key ==> Lookup(r, k) == Lookup(d, k))
      && (key in Keys(d) ==> |r| == |d|)
      && (key !in Keys(d) ==> r == d + [(key, value)])
  {
    if d != [] && d[0].0 != key {
      AssignSpec(d[1..], key, value);
      assert Keys(d) == [d[0].0] + Keys(d[1..]);
      var rest := Assign(d[1..], key, value);
      if key !in Keys(d) {
        assert [d[0]] + (d[1..] + [(key, value)]) == d + [(key, value)];
      }
    }
  }

  /** Assigning keeps the keys of a dict distinct. */
  lemma {:induction false} AssignUnique<V>(d: Dict<V>, key: string, value: V)
    requires UniqueKeys(d)
    ensures UniqueKeys(Assign(d, key, value))
  {
    if d != [] && d[0].0 != key {
      var tail := d[1..];
      assert forall i :: 0 <= i < |tail| ==> tail[i] == d[i + 1];
      AssignUnique(tail, key, value);
      AssignSpec(tail, key, value);
      var rest := Assign(tail, key, value);
      HasKeyIff(tail, d[0].0);
      HasKeyIff(rest, d[0].0);
      var r := [d[0]] + rest;
      assert forall i :: 1 <= i < |r| ==> r[i] == rest[i - 1];
    }
  }

  /** A merged entry: the value kept and the 1-based index of the dict it came from. */
  type Best = (int, nat)

  /** One item of dict number `index` merged in: a new key, or a strictly greater value,
      records `(value, index)`; an equal or smaller value leaves the entry. */
  function MergeItem(merged: Dict<Best>, item: (string, int), index: nat): Dict<Best> {
    match Lookup(merged, item.0)
    case None => Assign(merged, item.0, (item.1, index))
    case Some(existing) =>
      if item.1 > existing.0 then Assign(merged, item.0, (item.1, index)) else merged
  }

  /** The items of one dict merged in, in their order. */
  function MergeItems(merged: Dict<Best>, items: Dict<int>, index: nat): Dict<Best>
    decreases |items|
  {
    if items == [] then merged
    else MergeItem(MergeItems(merged, items[..|items| - 1], index), items[|items| - 1], index)
  }

  /** `merge_dicts_with_index(dicts_list)` as a value: the dicts merged in list order. */
  function Merged(dicts: seq<Dict<int>>): Dict<Best>
    decreases |dicts|
  {
    if dicts == [] then []
    else MergeItems(Merged(dicts[..|dicts| - 1]), dicts[|dicts| - 1], |dicts|)
  }

  /** `merge_dicts_with_index(dicts_list)` */
  method MergeDictsWithIndex(dicts: seq<Dict<int>>) returns (merged: Dict<Best>)
    ensures merged == Merged(dicts)
  {
    merged := [];
    for dictIndex := 1 to |dicts| + 1
      invariant merged == Merged(dicts[..dictIndex - 1])
    {
      assert dicts[..dictIndex][..dictIndex - 1] == dicts[..dictIndex - 1];
      var currentDict := dicts[dictIndex - 1];
      ghost var before := merged;
      for j := 0 to |currentDict|
        invariant merged == MergeItems(before, currentDict[..j], dictIndex)
      {
        assert currentDict[..j + 1][..j] == currentDict[..j];
        var (key, value) := currentDict[j];
        var existing := Lookup(merged, key);
        if existing.None? {
          merged := Assign(merged, key, (value, dictIndex));
        } else if value > existing.value.0 {
          merged := Assign(merged, key, (value, dictIndex));
        }
      }
      assert currentDict[..|currentDict|] == currentDict;
    }
    assert dicts[..|dicts|] == dicts;
  }

  /** How a key's entry changes when one dict is merged in. */
  function Combine(existing: Option<Best>, value: Option<int>, index: nat): Option<Best> {
    if value.None? then existing
    else if existing.None? || value.value > existing.value.0 then Some((value.value, index))
    else existing
  }

  lemma MergeItemLookup(merged: Dict<Best>, item: (string, int), index: nat, key: string)
    ensures Lookup(MergeItem(merged, item, index), key)
         == if item.0 == key then Combine(Lookup(merged, key), Some(item.1), index) else Lookup(merged, key)
  {
    AssignSpec(merged, item.0, (item.1, index));
  }

  lemma {:induction false} MergeItemsLookup(merged: Dict<Best>, items: Dict<int>, index: nat, key: string)
    requires UniqueKeys(items)
    ensures Lookup(MergeItems(merged, items, index), key) == Combine(Lookup(merged, key), Lookup(items, key), index)
    decreases |items|
  {
    if items != [] {
      var init := items[..|items| - 1];
      var last := items[|items| - 1];
      assert items == init + [last];
      assert UniqueKeys(init);
      MergeItemsLookup(merged, init, index, key);
      MergeItemLookup(MergeItems(merged, init, index), last, index, key);
      LookupSplit(init, last, key);
      if last.0 == key {
        assert Lookup(init, key).None? by {
          forall i | 0 <= i < |init| ensures Keys(init)[i] != key {
            assert items[i] == init[i];
          }
          LookupKeys(init, key);
        }
      }
    }
  }

  lemma LookupSplit<V>(init: Dict<V>, last: (string, V), key: string)
    ensures Lookup(init + [last], key)
         == (if Lookup(init, key).Some? then Lookup(init, key)
             else if last.0 == key then Some(last.1) else None)
  {
    if init != [] {
      assert (init + [last])[1..] == init[1..] + [last];
      LookupSplit(init[1..], last, key);
    } else {
      assert ([] + [last])[1..] == [];
    }
  }

  lemma {:induction false} MergeItemsUnique(merged: Dict<Best>, items: Dict<int>, index: nat)
    requires UniqueKeys(merged)
    ensures UniqueKeys(MergeItems(merged, items, index))
    decreases |items|
  {
    if items != [] {
      var m := MergeItems(merged, items[..|items| - 1], index);
      MergeItemsUnique(merged, items[..|items| - 1], index);
      var item := items[|items| - 1];
      AssignUnique(m, item.0, (item.1, index));
    }
  }

  /** The merged dict has each key once. */
  lemma {:induction false} MergedUnique(dicts: seq<Dict<int>>)
    ensures UniqueKeys(Merged(dicts))
    decreases |dicts|
  {
    if dicts != [] {
      MergedUnique(dicts[..|dicts| - 1]);
      MergeItemsUnique(Merged(dicts[..|dicts| - 1]), dicts[|dicts| - 1], |dicts|);
    }
  }

  /** `value` is the maximum of `key` over the dicts holding it, and `index` (1-based) is
      the first dict holding that maximum. */
  ghost predicate IsFirstMax(dicts: seq<Dict<int>>, key: string, value: int, index: nat) {
    && 1 <= index <= |dicts|
    && Lookup(dicts[index - 1], key) == Some(value)
    && (forall j :: 0 <= j < |dicts| && Lookup(dicts[j], key).Some? ==> Lookup(dicts[j], key).value <= value)
    && (forall j :: 0 <= j < index - 1 && Lookup(dicts[j], key).Some? ==> Lookup(dicts[j], key).value < value)
  }

  /** What a merged entry for `key` promises about the dicts merged so far. */
  ghost predicate MergedEntry(dicts: seq<Dict<int>>, key: string, entry: Option<Best>) {
    && (entry.Some? <==> SomeHolds(dicts, key))
    && (entry.Some? ==> IsFirstMax(dicts, key, entry.value.0, entry.value.1))
  }

  /** Some dict holds the key. */
  ghost predicate SomeHolds(dicts: seq<Dict<int>>, key: string) {
    exists j :: 0 <= j < |dicts| && HasKey(dicts[j], key)
  }

  lemma SomeHoldsSnoc(init: seq<Dict<int>>, last: Dict<int>, key: string)
    ensures SomeHolds(init + [last], key) <==> SomeHolds(init, key) || HasKey(last, key)
  {
    var dicts := init + [last];
    if SomeHolds(dicts, key) {
      var j :| 0 <= j < |dicts| && HasKey(dicts[j], key);
      if j < |init| {
        assert HasKey(init[j], key);
      }
    }
    if SomeHolds(init, key) {
      var j :| 0 <= j < |init| && HasKey(init[j], key);
      assert dicts[j] == init[j];
    }
    assert dicts[|init|] == last;
  }

  /** A dict whose value for the key is no greater leaves the first maximum where it is. */
  lemma FirstMaxKept(init: seq<Dict<int>>, last: Dict<int>, key: string, value: int, index: nat)
    requires IsFirstMax(init, key, value, index)
    requires Lookup(last, key).Some? ==> Lookup(last, key).value <= value
    ensures IsFirstMax(init + [last], key, value, index)
  {
    var dicts := init + [last];
    assert forall j :: 0 <= j < |init| ==> dicts[j] == init[j];
    assert dicts[|init|] == last;
  }

  /** A dict whose value is greater than every earlier one holds the first maximum. */
  lemma FirstMaxNew(init: seq<Dict<int>>, last: Dict<int>, key: string)
    requires Lookup(last, key).Some?
    requires forall j :: 0 <= j < |init| && Lookup(init[j], key).Some? ==>
      Lookup(init[j], key).value < Lookup(last, key).value
    ensures IsFirstMax(init + [last], key, Lookup(last, key).value, |init| + 1)
  {
    var dicts := init + [last];
    assert forall j :: 0 <= j < |init| ==> dicts[j] == init[j];
    assert dicts[|init|] == last;
  }

  /** Merging one more dict keeps the promise. */
  lemma MergedEntryStep(init: seq<Dict<int>>, last: Dict<int>, key: string, prev: Option<Best>)
    requires MergedEntry(init, key, prev)
    ensures MergedEntry(init + [last], key, Combine(prev, Lookup(last, key), |init| + 1))
  {
    SomeHoldsSnoc(init, last, key);
    assert MergedEntry(init, key, prev) ==> (prev.Some? <==> SomeHolds(init, key));
    var v := Lookup(last, key);
    if v.None? {
      if prev.Some? {
        FirstMaxKept(init, last, key, prev.value.0, prev.value.1);
      }
    } else if prev.None? {
      assert !SomeHolds(init, key);
      assert forall j :: 0 <= j < |init| ==> !HasKey(init[j], key);
      FirstMaxNew(init, last, key);
    } else if v.value > prev.value.0 {
      FirstMaxNew(init, last, key);
    } else {
      FirstMaxKept(init, last, key, prev.value.0, prev.value.1);
    }
  }

  /** The merged keys are the union of the keys of the dicts, and each merged entry holds
      the key's maximum and the first dict, in list order, that holds it. */
  lemma {:induction false} MergedSpec(dicts: seq<Dict<int>>, key: string)
    requires forall i :: 0 <= i < |dicts| ==> UniqueKeys(dicts[i])
    ensures MergedEntry(dicts, key, Lookup(Merged(dicts), key))
    decreases |dicts|
  {
    if dicts != [] {
      var n := |dicts|;
      var init := dicts[..n - 1];
      MergedSpec(init, key);
      MergeItemsLookup(Merged(init), dicts[n - 1], n, key);
      MergedEntryStep(init, dicts[n - 1], key, Lookup(Merged(init), key));
      assert init + [dicts[n - 1]] == dicts;
    }
  }

  /** `sum(key in dct for dct in dicts_list)`: how many dicts hold `key`. */
  function Occurrences(dicts: seq<Dict<int>>, key: string): (n: nat)
    ensures n <= |dicts|
    decreases |dicts|
  {
    if dicts == [] then 0
    else Occurrences(dicts[..|dicts| - 1], key) + (if HasKey(dicts[|dicts| - 1], key) then 1 else 0)
  }

  /** A key counts as a duplicate exactly when two different dicts hold it, and occurs at
      all exactly when some dict holds it. */
  lemma {:induction false} OccurrencesMeaning(dicts: seq<Dict<int>>, key: string)
    ensures Occurrences(dicts, key) >= 1 <==> exists j :: 0 <= j < |dicts| && HasKey(dicts[j], key)
    ensures Occurrences(dicts, key) > 1 <==>
      exists i, j :: 0 <= i < j < |dicts| && HasKey(dicts[i], key) && HasKey(dicts[j], key)
    decreases |dicts|
  {
    if dicts != [] {
      var n := |dicts|;
      var init := dicts[..n - 1];
      OccurrencesMeaning(init, key);
      assert forall j :: 0 <= j < n - 1 ==> dicts[j] == init[j];
      if Occurrences(dicts, key) > 1 && Occurrences(init, key) <= 1 {
        var j :| 0 <= j < n - 1 && HasKey(init[j], key);
        assert HasKey(dicts[j], key) && HasKey(dicts[n - 1], key);
      }
      if exists i, j :: 0 <= i < j < n && HasKey(dicts[i], key) && HasKey(dicts[j], key) {
        var i, j :| 0 <= i < j < n && HasKey(dicts[i], key) && HasKey(dicts[j], key);
        if j < n - 1 {
          assert HasKey(init[i], key) && HasKey(init[j], key);
        } else {
          assert HasKey(init[i], key);
        }
      }
    }
  }

  /** The key an entry is emitted under: `key_index` for a duplicate, else `key`. */
  function NewKey(dicts: seq<Dict<int>>, key: string, index: nat): string {
    if Occurrences(dicts, key) > 1 then key + "_" + NatToString(index) else key
  }

  /** The items `rename_duplicate_keys` assigns, in order: each merged entry under its
      new key, with its value. */
  function Emitted(merged: Dict<Best>, dicts: seq<Dict<int>>): (items: Dict<int>)
    ensures |items| == |merged|
  {
    seq(|merged|, i requires 0 <= i < |merged| => (NewKey(dicts, merged[i].0, merged[i].1.1), merged[i].1.0))
  }

  /** A dict built by `d[key] = value` for each item in order, starting empty. */
  function AssignAll<V(==)>(items: Dict<V>): Dict<V>
    decreases |items|
  {
    if items == [] then []
    else Assign(AssignAll(items[..|items| - 1]), items[|items| - 1].0, items[|items| - 1].1)
  }

  /** `rename_duplicate_keys(merged_dict, dicts_list)` as a value: a later item whose new
      key is already present overwrites that value. */
  function Renamed(merged: Dict<Best>, dicts: seq<Dict<int>>): Dict<int> {
    AssignAll(Emitted(merged, dicts))
  }

  /** `rename_duplicate_keys(merged_dict, dicts_list)` */
  method RenameDuplicateKeys(merged: Dict<Best>, dicts: seq<Dict<int>>) returns (finalDict: Dict<int>)
    ensures finalDict == Renamed(merged, dicts)
  {
    ghost var items := Emitted(merged, dicts);
    finalDict := [];
    for i := 0 to |merged|
      invariant finalDict == AssignAll(items[..i])
    {
      assert items[..i + 1][..i] == items[..i];
      var (key, (value, dictIndex)) := merged[i];
      var isDuplicate := Occurrences(dicts, key) > 1;
      if isDuplicate {
        finalDict := Assign(finalDict, key + "_" + NatToString(dictIndex), value);
      } else {
        finalDict := Assign(finalDict, key, value);
      }
    }
    assert items[..|merged|] == items;
  }

  /** `process_dicts_list(dicts_list)` as a value. */
  function Processed(dicts: seq<Dict<int>>): Dict<int> {
    Renamed(Merged(dicts), dicts)
  }

  /** `process_dicts_list(dicts_list)`; the Homework_2 script runs the same two loops on
      its own list. */
  method ProcessDictsList(dicts: seq<Dict<int>>) returns (finalDict: Dict<int>)
    ensures finalDict == Processed(dicts)
  {
    var merged := MergeDictsWithIndex(dicts);
    finalDict := RenameDuplicateKeys(merged, dicts);
  }

  /** Every assigned key is in the result, which holds no other key. */
  lemma {:induction false} AssignAllKeys<V>(items: Dict<V>, k: string)
    ensures HasKey(AssignAll(items), k) <==> k in Keys(items)
    decreases |items|
  {
    if items != [] {
      var init := items[..|items| - 1];
      var last := items[|items| - 1];
      AssignAllKeys(init, k);
      AssignSpec(AssignAll(init), last.0, last.1);
      assert items == init + [last];
      KeysSnoc(init, last);
    }
  }

  lemma KeysSnoc<V>(d: Dict<V>, x: (string, V))
    ensures Keys(d + [x]) == Keys(d) + [x.0]
  {
    var l := Keys(d + [x]);
    var r := Keys(d) + [x.0];
    assert forall i :: 0 <= i < |l| ==> l[i] == r[i];
  }

  /** Assigning items with distinct keys gives exactly those items, in order. */
  lemma {:induction false} AssignAllExact<V>(items: Dict<V>)
    requires UniqueKeys(items)
    ensures AssignAll(items) == items
    decreases |items|
  {
    if items != [] {
      var n := |items| - 1;
      var init := items[..n];
      var last := items[n];
      assert forall j :: 0 <= j < n ==> init[j] == items[j];
      AssignAllExact(init);
      AssignNew(init, last.0, last.1);
      assert items == init + [(last.0, last.1)];
    }
  }

  /** The result holds exactly the new keys of the merged entries. */
  lemma RenamedKeys(merged: Dict<Best>, dicts: seq<Dict<int>>, k: string)
    ensures HasKey(Renamed(merged, dicts), k) <==>
      exists i :: 0 <= i < |merged| && NewKey(dicts, merged[i].0, merged[i].1.1) == k
  {
    var items := Emitted(merged, dicts);
    AssignAllKeys(items, k);
    if k in Keys(items) {
      var i :| 0 <= i < |items| && Keys(items)[i] == k;
      assert NewKey(dicts, merged[i].0, merged[i].1.1) == k;
    }
    if exists i :: 0 <= i < |merged| && NewKey(dicts, merged[i].0, merged[i].1.1) == k {
      var i :| 0 <= i < |merged| && NewKey(dicts, merged[i].0, merged[i].1.1) == k;
      assert Keys(items)[i] == k;
    }
  }

  /** When the new keys do not collide, every merged entry gives exactly one item, in the
      same order, under its new key and with its value. */
  lemma RenamedExact(merged: Dict<Best>, dicts: seq<Dict<int>>)
    requires forall i, j :: 0 <= i < j < |merged| ==>
      NewKey(dicts, merged[i].0, merged[i].1.1) != NewKey(dicts, merged[j].0, merged[j].1.1)
    ensures Renamed(merged, dicts) == Emitted(merged, dicts)
  {
    var items := Emitted(merged, dicts);
    assert UniqueKeys(items) by {
      forall i, j | 0 <= i < j < |items| ensures items[i].0 != items[j].0 {
        assert items[i].0 == NewKey(dicts, merged[i].0, merged[i].1.1);
        assert items[j].0 == NewKey(dicts, merged[j].0, merged[j].1.1);
      }
    }
    AssignAllExact(items);
  }

  lemma UnderscoreSplit(k1: string, s1: string, k2: string, s2: string)
    requires '_' !in k1 && '_' !in k2
    requires k1 + "_" + s1 == k2 + "_" + s2
    ensures k1 == k2
  {
    var a := k1 + "_" + s1;
    assert a[|k1|] == '_' && a[|k2|] == '_';
    assert k1 == a[..|k1|] == k2;
  }

  /** When no key holds `_`, distinct keys get distinct new keys, so renaming never merges
      two entries. */
  lemma NoUnderscoreNoCollision(dicts: seq<Dict<int>>, k1: string, i1: nat, k2: string, i2: nat)
    requires '_' !in k1 && '_' !in k2 && k1 != k2
    ensures NewKey(dicts, k1, i1) != NewKey(dicts, k2, i2)
  {
    var n1 := NewKey(dicts, k1, i1);
    var n2 := NewKey(dicts, k2, i2);
    if Occurrences(dicts, k1) > 1 && Occurrences(dicts, k2) > 1 {
      if n1 == n2 {
        UnderscoreSplit(k1, NatToString(i1), k2, NatToString(i2));
      }
    } else if Occurrences(dicts, k1) > 1 {
      assert n1[|k1|] == '_';
    } else if Occurrences(dicts, k2) > 1 {
      assert n2[|k2|] == '_';
    }
  }

  /** The whole program, for dicts whose keys hold no `_`: one item per key of any dict,
      carrying the key's maximum, under `key_index` exactly when two dicts hold the key. */
  lemma ProcessedSpec(dicts: seq<Dict<int>>)
    requires forall i :: 0 <= i < |dicts| ==> UniqueKeys(dicts[i])
    requires forall i, k :: 0 <= i < |dicts| && HasKey(dicts[i], k) ==> '_' !in k
    ensures var merged := Merged(dicts);
      && Processed(dicts) == Emitted(merged, dicts)
      && forall i :: 0 <= i < |merged| ==> IsFirstMax(dicts, merged[i].0, merged[i].1.0, merged[i].1.1)
  {
    var merged := Merged(dicts);
    MergedUnique(dicts);
    forall i | 0 <= i < |merged|
      ensures '_' !in merged[i].0
      ensures IsFirstMax(dicts, merged[i].0, merged[i].1.0, merged[i].1.1)
    {
      var key := merged[i].0;
      MergedSpec(dicts, key);
      LookupUnique(merged, i);
    }
    forall i, j | 0 <= i < j < |merged|
      ensures NewKey(dicts, merged[i].0, merged[i].1.1) != NewKey(dicts, merged[j].0, merged[j].1.1)
    {
      NoUnderscoreNoCollision(dicts, merged[i].0, merged[i].1.1, merged[j].0, merged[j].1.1);
    }
    RenamedExact(merged, dicts);
  }

  lemma LookupUnique<V>(d: Dict<V>, i: nat)
    requires UniqueKeys(d) && i < |d|
    ensures Lookup(d, d[i].0) == Some(d[i].1)
  {
    if i > 0 {
      assert d[0].0 != d[i].0;
      assert d[1..][i - 1] == d[i];
      LookupUnique(d[1..], i - 1);
    }
  }

  /** The list both programs use. */
  const ExampleDicts: seq<Dict<int>> := [
    [("a", 5), ("b", 7)],
    [("a", 3), ("c", 35), ("g", 42)],
    [("a", 10), ("b", 2), ("x", 50)]
  ]

  lemma MergeItemsSnoc(merged: Dict<Best>, items: Dict<int>, item: (string, int), index: nat)
    ensures MergeItems(merged, items + [item], index) == MergeItem(MergeItems(merged, items, index), item, index)
  {
    assert (items + [item])[..|items|] == items;
  }

  lemma MergedSnoc(dicts: seq<Dict<int>>, d: Dict<int>)
    ensures Merged(dicts + [d]) == MergeItems(Merged(dicts), d, |dicts| + 1)
  {
    assert (dicts + [d])[..|dicts|] == dicts;
  }

  /** `d[key] = value` for a key first found at position `i` replaces that item. */
  lemma {:induction false} AssignAt<V>(d: Dict<V>, i: nat, key: string, value: V)
    requires i < |d| && d[i].0 == key
    requires forall j :: 0 <= j < i ==> d[j].0 != key
    ensures Lookup(d, key) == Some(d[i].1)
    ensures Assign(d, key, value) == d[i := (key, value)]
  {
    if i > 0 {
      AssignAt(d[1..], i - 1, key, value);
      assert [d[0]] + d[1..][i - 1 := (key, value)] == d[i := (key, value)];
    }
  }

  /** `d[key] = value` for a key not in `d` appends the item. */
  lemma {:induction false} AssignNew<V>(d: Dict<V>, key: string, value: V)
    requires forall j :: 0 <= j < |d| ==> d[j].0 != key
    ensures Lookup(d, key).None?
    ensures Assign(d, key, value) == d + [(key, value)]
  {
    if d != [] {
      AssignNew(d[1..], key, value);
      assert [d[0]] + (d[1..] + [(key, value)]) == d + [(key, value)];
    }
  }

  /** Merging an item whose key is new appends it with its dict's index. */
  lemma MergeItemNew(merged: Dict<Best>, item: (string, int), index: nat)
    requires forall j :: 0 <= j < |merged| ==> merged[j].0 != item.0
    ensures MergeItem(merged, item, index) == merged + [(item.0, (item.1, index))]
  {
    AssignNew(merged, item.0, (item.1, index));
  }

  /** Merging an item whose key sits at position `i` replaces that entry only when the
      value is strictly greater. */
  lemma MergeItemAt(merged: Dict<Best>, i: nat, item: (string, int), index: nat)
    requires i < |merged| && merged[i].0 == item.0
    requires forall j :: 0 <= j < i ==> merged[j].0 != item.0
    ensures MergeItem(merged, item, index)
         == if item.1 > merged[i].1.0 then merged[i := (item.0, (item.1, index))] else merged
  {
    AssignAt(merged, i, item.0, (item.1, index));
  }

  // The example merged one item at a time: each step is its own small proof.

  lemma ExampleItemA5()
    ensures MergeItem([], ("a", 5), 1) == [("a", (5, 1))]
  {
    MergeItemNew([], ("a", 5), 1);
  }

  lemma ExampleItemB7()
    ensures MergeItem([("a", (5, 1))], ("b", 7), 1) == [("a", (5, 1)), ("b", (7, 1))]
  {
    MergeItemNew([("a", (5, 1))], ("b", 7), 1);
  }

  lemma ExampleItemA3()
    ensures MergeItem([("a", (5, 1)), ("b", (7, 1))], ("a", 3), 2) == [("a", (5, 1)), ("b", (7, 1))]
  {
    MergeItemAt([("a", (5, 1)), ("b", (7, 1))], 0, ("a", 3), 2);
  }

  lemma ExampleItemC35()
    ensures MergeItem([("a", (5, 1)), ("b", (7, 1))], ("c", 35), 2)
         == [("a", (5, 1)), ("b", (7, 1)), ("c", (35, 2))]
  {
    MergeItemNew([("a", (5, 1)), ("b", (7, 1))], ("c", 35), 2);
  }

  lemma ExampleItemG42()
    ensures MergeItem([("a", (5, 1)), ("b", (7, 1)), ("c", (35, 2))], ("g", 42), 2)
         == [("a", (5, 1)), ("b", (7, 1)), ("c", (35, 2)), ("g", (42, 2))]
  {
    MergeItemNew([("a", (5, 1)), ("b", (7, 1)), ("c", (35, 2))], ("g", 42), 2);
  }

  lemma ExampleItemA10()
    ensures MergeItem([("a", (5, 1)), ("b", (7, 1)), ("c", (35, 2)), ("g", (42, 2))], ("a", 10), 3)
         == [("a", (10, 3)), ("b", (7, 1)), ("c", (35, 2)), ("g", (42, 2))]
  {
    var m := [("a", (5, 1)), ("b", (7, 1)), ("c", (35, 2)), ("g", (42, 2))];
    MergeItemAt(m, 0, ("a", 10), 3);
    assert m[0 := ("a", (10, 3))] == [("a", (10, 3)), ("b", (7, 1)), ("c", (35, 2)), ("g", (42, 2))];
  }

  lemma ExampleItemB2()
    ensures MergeItem([("a", (10, 3)), ("b", (7, 1)), ("c", (35, 2)), ("g", (42, 2))], ("b", 2), 3)
         == [("a", (10, 3)), ("b", (7, 1)), ("c", (35, 2)), ("g", (42, 2))]
  {
    MergeItemAt([("a", (10, 3)), ("b", (7, 1)), ("c", (35, 2)), ("g", (42, 2))], 1, ("b", 2), 3);
  }

  lemma ExampleItemX50()
    ensures MergeItem([("a", (10, 3)), ("b", (7, 1)), ("c", (35, 2)), ("g", (42, 2))], ("x", 50), 3)
         == [("a", (10, 3)), ("b", (7, 1)), ("c", (35, 2)), ("g", (42, 2)), ("x", (50, 3))]
  {
    MergeItemNew([("a", (10, 3)), ("b", (7, 1)), ("c", (35, 2)), ("g", (42, 2))], ("x", 50), 3);
  }

  /** Three items merged in turn. */
  lemma MergeThree(merged: Dict<Best>, x: (string, int), y: (string, int), z: (string, int), index: nat)
    ensures MergeItems(merged, [x, y, z], index)
         == MergeItem(MergeItem(MergeItem(merged, x, index), y, index), z, index)
  {
    MergeItemsSnoc(merged, [], x, index);
    MergeItemsSnoc(merged, [x], y, index);
    MergeItemsSnoc(merged, [x, y], z, index);
    assert [] + [x] == [x] && [x] + [y] == [x, y] && [x, y] + [z] == [x, y, z];
  }

  lemma ExampleFirstDict()
    ensures MergeItems([], ExampleDicts[0], 1) == [("a", (5, 1)), ("b", (7, 1))]
  {
    var x, y := ("a", 5), ("b", 7);
    MergeItemsSnoc([], [], x, 1);
    MergeItemsSnoc([], [x], y, 1);
    assert [] + [x] == [x] && [x] + [y] == [x, y] == ExampleDicts[0];
    ExampleItemA5();
    ExampleItemB7();
  }

  lemma ExampleSecondDict()
    ensures MergeItems([("a", (5, 1)), ("b", (7, 1))], ExampleDicts[1], 2)
         == [("a", (5, 1)), ("b", (7, 1)), ("c", (35, 2)), ("g", (42, 2))]
  {
    MergeThree([("a", (5, 1)), ("b", (7, 1))], ("a", 3), ("c", 35), ("g", 42), 2);
    ExampleItemA3();
    ExampleItemC35();
    ExampleItemG42();
  }

  lemma ExampleThirdDict()
    ensures MergeItems([("a", (5, 1)), ("b", (7, 1)), ("c", (35, 2)), ("g", (42, 2))], ExampleDicts[2], 3)
         == [("a", (10, 3)), ("b", (7, 1)), ("c", (35, 2)), ("g", (42, 2)), ("x", (50, 3))]
  {
    MergeThree([("a", (5, 1)), ("b", (7, 1)), ("c", (35, 2)), ("g", (42, 2))], ("a", 10), ("b", 2), ("x", 50), 3);
    ExampleItemA10();
    ExampleItemB2();
    ExampleItemX50();
  }

  /** The merge of the example: `a` keeps 10 from the third dict, `b` keeps 7 from the
      first. */
  lemma ExampleMerged()
    ensures Merged(ExampleDicts)
         == [("a", (10, 3)), ("b", (7, 1)), ("c", (35, 2)), ("g", (42, 2)), ("x", (50, 3))]
  {
    var d := ExampleDicts;
    ExampleFirstDict();
    ExampleSecondDict();
    ExampleThirdDict();
    MergedSnoc([], d[0]);
    MergedSnoc([d[0]], d[1]);
    MergedSnoc([d[0], d[1]], d[2]);
    assert [] + [d[0]] == [d[0]];
    assert [d[0]] + [d[1]] == [d[0], d[1]];
    assert [d[0], d[1]] + [d[2]] == d;
  }

  /** A key is found iff some item carries it. */
  lemma HasKeyIff<V>(d: Dict<V>, key: string)
    ensures HasKey(d, key) <==> exists i :: 0 <= i < |d| && d[i].0 == key
  {
    LookupKeys(d, key);
    if key in Keys(d) {
      var i :| 0 <= i < |d| && Keys(d)[i] == key;
      assert d[i].0 == key;
    }
  }

  /** How many of the example dicts hold each of its keys. */
  lemma ExampleOccurrences()
    ensures Occurrences(ExampleDicts, "a") == 3
    ensures Occurrences(ExampleDicts, "b") == 2
    ensures Occurrences(ExampleDicts, "c") == 1
    ensures Occurrences(ExampleDicts, "g") == 1
    ensures Occurrences(ExampleDicts, "x") == 1
  {
    var d := ExampleDicts;
    assert d[..2][..1] == [d[0]] && d[..1] == [d[0]] && [d[0]][..0] == [];
    assert d[0][1..][1..] == [] && d[1][1..][1..][1..] == [] && d[2][1..][1..][1..] == [];
  }

  lemma ExampleNewKeys()
    ensures NewKey(ExampleDicts, "a", 3) == "a_3" && NewKey(ExampleDicts, "b", 1) == "b_1"
    ensures NewKey(ExampleDicts, "c", 2) == "c" && NewKey(ExampleDicts, "g", 2) == "g"
    ensures NewKey(ExampleDicts, "x", 3) == "x"
  {
    ExampleOccurrences();
    assert NatToString(3) == "3" && NatToString(1) == "1";
  }

  lemma ExampleKeysDistinct()
    ensures UniqueKeys([("a_3", 10), ("b_1", 7), ("c", 35), ("g", 42), ("x", 50)])
  {
    var expected := [("a_3", 10), ("b_1", 7), ("c", 35), ("g", 42), ("x", 50)];
    var firsts := ['a', 'b', 'c', 'g', 'x'];
    assert forall i :: 0 <= i < 5 ==> expected[i].0[0] == firsts[i];
  }

  /** `process_dicts_list` on the example gives `{'a_3': 10, 'b_1': 7, 'c': 35, 'g': 42, 'x': 50}`. */
  lemma ExampleResult()
    ensures Processed(ExampleDicts) == [("a_3", 10), ("b_1", 7), ("c", 35), ("g", 42), ("x", 50)]
  {
    var m3 := [("a", (10, 3)), ("b", (7, 1)), ("c", (35, 2)), ("g", (42, 2)), ("x", (50, 3))];
    var expected := [("a_3", 10), ("b_1", 7), ("c", 35), ("g", 42), ("x", 50)];
    assert Emitted(m3, ExampleDicts) == expected by {
      ExampleNewKeys();
      var items := Emitted(m3, ExampleDicts);
      assert items[0] == expected[0] && items[1] == expected[1] && items[2] == expected[2];
      assert items[3] == expected[3] && items[4] == expected[4];
    }
    assert AssignAll(expected) == expected by {
      ExampleKeysDistinct();
      AssignAllExact(expected);
    }
    ExampleMerged();
  }

  /** The Homework_2 script: its list gives the same dict. */
  method MergeScript() returns (finalDict: Dict<int>)
    ensures finalDict == [("a_3", 10), ("b_1", 7), ("c", 35), ("g", 42), ("x", 50)]
  {
    finalDict := ProcessDictsList(ExampleDicts);
    ExampleResult();
  }
}
