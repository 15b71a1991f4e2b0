/**
 * The content of a JSON sidecar as the engine sees it: a Python `dict` from
 * string keys to JSON values, modelled as an association list whose keys are
 * distinct and whose order is the dict's insertion order. The merge step
 * (`modify_intended_for`) assigns one key and rebuilds the dict in sorted key
 * order, so its result is a sorted association list.
 */
module Sidecar {
  import opened Wrappers
  import Strings

  /** A JSON value. Only strings, `null` and arrays are ever built by the engine;
      every other value (numbers, booleans, objects) is carried along untouched. */
  datatype Json =
    | Null
    | Str(s: string)
    | Array(items: seq<Json>)
    | Other(text: string)

  datatype Entry = Entry(key: string, value: Json)

  /** The key the engine rewrites. */
  const IntendedFor: string := "IntendedFor"

  function Keys(items: seq<Entry>): set<string>
    decreases |items|
  {
    if |items| == 0 then {} else {items[0].key} + Keys(items[1..])
  }

  /** No key occurs twice. */
  predicate DistinctKeys(items: seq<Entry>)
    decreases |items|
  {
    |items| == 0 || (items[0].key !in Keys(items[1..]) && DistinctKeys(items[1..]))
  }

  /** A Python dict: keys never repeat. */
  type Dict = items: seq<Entry> | DistinctKeys(items) witness []

  /** Each key is below the next in Python `str` order, as `dict(sorted(d.items()))` leaves them. */
  predicate SortedKeys(items: seq<Entry>)
    decreases |items|
  {
    |items| <= 1 || (Strings.Less(items[0].key, items[1].key) && SortedKeys(items[1..]))
  }

  /** Python's `d.get(k)`: the value stored under `k`, if any. */
  function Lookup(items: seq<Entry>, k: string): Option<Json>
    decreases |items|
  {
    if |items| == 0 then None
    else if items[0].key == k then Some(items[0].value)
    else Lookup(items[1..], k)
  }

  /** The JSON array `json.dump` writes for a Python list of paths, `None` becoming `null`. */
  function PathList(paths: seq<Option<string>>): Json
  {
    Array(seq(|paths|, i requires 0 <= i < |paths| =>
      if paths[i].Some? then Str(paths[i].value) else Null))
  }

  // ---------------------------------------------------------------------------
  // Keys and lookup

  lemma {:induction false} KeyOfMember(items: seq<Entry>, e: Entry)
    requires e in items
    ensures e.key in Keys(items)
    decreases |items|
  {
    if items[0] != e {
      assert items == [items[0]] + items[1..];
      KeyOfMember(items[1..], e);
    }
  }

  lemma {:induction false} MemberOfKey(items: seq<Entry>, k: string) returns (e: Entry)
    requires k in Keys(items)
    ensures e in items && e.key == k
    decreases |items|
  {
    if items[0].key == k {
      e := items[0];
    } else {
      e := MemberOfKey(items[1..], k);
    }
  }

  lemma KeysOfPermutation(a: seq<Entry>, b: seq<Entry>)
    requires multiset(a) == multiset(b)
    ensures Keys(a) == Keys(b)
  {
    forall k | k in Keys(a) ensures k in Keys(b) {
      var e := MemberOfKey(a, k);
      assert e in multiset(a);
      KeyOfMember(b, e);
    }
    forall k | k in Keys(b) ensures k in Keys(a) {
      var e := MemberOfKey(b, k);
      assert e in multiset(b);
      KeyOfMember(a, e);
    }
  }

  /** `DistinctKeys` read the usual way: no two positions share a key. */
  lemma {:induction false} DistinctKeysMeans(items: seq<Entry>)
    ensures DistinctKeys(items) <==>
            forall i, j :: 0 <= i < j < |items| ==> items[i].key != items[j].key
    decreases |items|
  {
    if |items| > 0 {
      DistinctKeysMeans(items[1..]);
      if DistinctKeys(items) {
        forall i, j | 0 <= i < j < |items| ensures items[i].key != items[j].key {
          if i == 0 {
            assert items[j] == items[1..][j - 1];
            KeyOfMember(items[1..], items[j]);
          } else {
            assert items[i] == items[1..][i - 1] && items[j] == items[1..][j - 1];
          }
        }
      }
      if forall i, j :: 0 <= i < j < |items| ==> items[i].key != items[j].key {
        if items[0].key in Keys(items[1..]) {
          var e := MemberOfKey(items[1..], items[0].key);
          assert false;
        }
        forall i, j | 0 <= i < j < |items[1..]| ensures items[1..][i].key != items[1..][j].key {
          assert items[1..][i] == items[i + 1] && items[1..][j] == items[j + 1];
        }
      }
    }
  }

  /** In a dict, `d.get(k)` finds exactly the entries the dict holds. */
  lemma {:induction false} LookupMeans(items: seq<Entry>, k: string, v: Json)
    requires DistinctKeys(items)
    ensures Lookup(items, k) == Some(v) <==> Entry(k, v) in items
    ensures Lookup(items, k) == None <==> k !in Keys(items)
    decreases |items|
  {
    if |items| > 0 {
      LookupMeans(items[1..], k, v);
      assert items == [items[0]] + items[1..];
    }
  }

  /** Two dicts holding the same entries answer every lookup alike. */
  lemma LookupOfPermutation(a: seq<Entry>, b: seq<Entry>, k: string)
    requires DistinctKeys(a) && DistinctKeys(b)
    requires multiset(a) == multiset(b)
    ensures Lookup(a, k) == Lookup(b, k)
  {
    KeysOfPermutation(a, b);
    match Lookup(a, k)
    case None =>
      LookupMeans(a, k, Null);
      LookupMeans(b, k, Null);
    case Some(v) =>
      LookupMeans(a, k, v);
      assert Entry(k, v) in multiset(b);
      LookupMeans(b, k, v);
  }

  // ---------------------------------------------------------------------------
  // Sorted key order

  /** The first key of a sorted list is below every later key. */
  lemma {:induction false} SortedHeadLeast(items: seq<Entry>, k: string)
    requires SortedKeys(items) && |items| > 0
    requires k in Keys(items[1..])
    ensures Strings.Less(items[0].key, k)
    decreases |items|
  {
    var tail := items[1..];
    if tail[0].key != k {
      SortedHeadLeast(tail, k);
      Strings.LessTransitive(items[0].key, tail[0].key, k);
    }
  }

  lemma {:induction false} SortedIsDistinct(items: seq<Entry>)
    requires SortedKeys(items)
    ensures DistinctKeys(items)
    decreases |items|
  {
    if |items| > 0 {
      if items[0].key in Keys(items[1..]) {
        SortedHeadLeast(items, items[0].key);
        Strings.LessIrreflexive(items[0].key);
      }
      SortedIsDistinct(items[1..]);
    }
  }

  /** `SortedKeys` read the usual way: every earlier key is below every later key. */
  lemma {:induction false} SortedKeysMeans(items: seq<Entry>)
    ensures SortedKeys(items) <==>
            forall i, j :: 0 <= i < j < |items| ==> Strings.Less(items[i].key, items[j].key)
    decreases |items|
  {
    if |items| > 1 {
      SortedKeysMeans(items[1..]);
      if SortedKeys(items) {
        forall i, j | 0 <= i < j < |items| ensures Strings.Less(items[i].key, items[j].key) {
          if i == 0 {
            assert items[j] == items[1..][j - 1];
            KeyOfMember(items[1..], items[j]);
            SortedHeadLeast(items, items[j].key);
          } else {
            assert items[i] == items[1..][i - 1] && items[j] == items[1..][j - 1];
          }
        }
      }
      if forall i, j :: 0 <= i < j < |items| ==> Strings.Less(items[i].key, items[j].key) {
        forall i, j | 0 <= i < j < |items[1..]|
          ensures Strings.Less(items[1..][i].key, items[1..][j].key)
        {
          assert items[1..][i] == items[i + 1] && items[1..][j] == items[j + 1];
        }
      }
    }
  }

  // ---------------------------------------------------------------------------
  // `d[k] = v`

  /** Python's `d[k] = v`: an existing key keeps its place and takes the new value,
      a new key is appended. */
  function Assign(items: seq<Entry>, k: string, v: Json): seq<Entry>
    decreases |items|
  {
    if |items| == 0 then [Entry(k, v)]
    else if items[0].key == k then [Entry(k, v)] + items[1..]
    else [items[0]] + Assign(items[1..], k, v)
  }

  /** After `d[k] = v`, `d.get(k)` is `v` and every other key answers as before. */
  lemma {:induction false} AssignLookup(items: seq<Entry>, k: string, v: Json, k': string)
    ensures Lookup(Assign(items, k, v), k') == if k' == k then Some(v) else Lookup(items, k')
    decreases |items|
  {
    if |items| > 0 && items[0].key != k {
      AssignLookup(items[1..], k, v, k');
    }
  }

  /** `d[k] = v` adds `k` to the keys and no other. */
  lemma {:induction false} AssignKeys(items: seq<Entry>, k: string, v: Json)
    ensures Keys(Assign(items, k, v)) == Keys(items) + {k}
    decreases |items|
  {
    if |items| > 0 && items[0].key != k {
      AssignKeys(items[1..], k, v);
    }
  }

  /** `d[k] = v` keeps a dict a dict. */
  lemma {:induction false} AssignDistinct(items: seq<Entry>, k: string, v: Json)
    requires DistinctKeys(items)
    ensures DistinctKeys(Assign(items, k, v))
    decreases |items|
  {
    if |items| > 0 && items[0].key != k {
      AssignKeys(items[1..], k, v);
      AssignDistinct(items[1..], k, v);
    }
  }

  /** Assigning the value a dict already holds gives the same dict back. */
  lemma {:induction false} AssignSame(items: seq<Entry>, k: string, v: Json)
    requires Lookup(items, k) == Some(v)
    ensures Assign(items, k, v) == items
    decreases |items|
  {
    if items[0].key != k {
      AssignSame(items[1..], k, v);
    } else {
      assert items == [items[0]] + items[1..];
    }
  }

  // ---------------------------------------------------------------------------
  // `dict(sorted(d.items()))`

  /** Places one entry with a fresh key into a sorted list. */
  function Insert(e: Entry, items: seq<Entry>): (r: seq<Entry>)
    requires SortedKeys(items)
    requires e.key !in Keys(items)
    ensures SortedKeys(r)
    ensures multiset(r) == multiset(items) + multiset{e}
    ensures Keys(r) == Keys(items) + {e.key}
    ensures r[0] == e || (|items| > 0 && r[0] == items[0])
    decreases |items|
  {
    if |items| == 0 then [e]
    else if Strings.Less(e.key, items[0].key) then [e] + items
    else
      Strings.LessTotal(e.key, items[0].key);
      assert items == [items[0]] + items[1..];
      [items[0]] + Insert(e, items[1..])
  }

  /** Sorts a dict's entries by key: a sorted permutation of its input. */
  function Sort(items: seq<Entry>): (r: seq<Entry>)
    requires DistinctKeys(items)
    ensures SortedKeys(r)
    ensures multiset(r) == multiset(items)
    ensures Keys(r) == Keys(items)
    decreases |items|
  {
    if |items| == 0 then []
    else
      assert items == [items[0]] + items[1..];
      Insert(items[0], Sort(items[1..]))
  }

  /** A sorted list is determined by its entries, so every correct sort gives
      the same list as `Sort`. Python's `sorted` compares `(key, value)` tuples
      with a stable merge sort; keys never tie in a dict, so it too yields this list. */
  lemma {:induction false} SortedUnique(a: seq<Entry>, b: seq<Entry>)
    requires SortedKeys(a) && SortedKeys(b)
    requires multiset(a) == multiset(b)
    ensures a == b
    decreases |a|
  {
    if |a| > 0 {
      assert |b| == |multiset(b)| == |a|;
      assert a == [a[0]] + a[1..] && b == [b[0]] + b[1..];
      if a[0] != b[0] {
        assert a[0] in multiset(b) && b[0] in multiset(a);
        assert a[0] in b[1..] && b[0] in a[1..];
        KeyOfMember(b[1..], a[0]);
        KeyOfMember(a[1..], b[0]);
        SortedHeadLeast(b, a[0].key);
        SortedHeadLeast(a, b[0].key);
        Strings.LessAsymmetric(a[0].key, b[0].key);
        assert false;
      }
      assert multiset(a[1..]) == multiset(a) - multiset{a[0]};
      assert multiset(b[1..]) == multiset(b) - multiset{b[0]};
      SortedUnique(a[1..], b[1..]);
    }
  }

  /** Sorting an already sorted dict changes nothing. */
  lemma SortSorted(items: seq<Entry>)
    requires SortedKeys(items)
    ensures DistinctKeys(items)
    ensures Sort(items) == items
  {
    SortedIsDistinct(items);
    SortedUnique(Sort(items), items);
  }

  lemma SortKeepsEntries(items: seq<Entry>)
    requires DistinctKeys(items)
    ensures DistinctKeys(Sort(items))
    ensures forall k :: Lookup(Sort(items), k) == Lookup(items, k)
  {
    var r := Sort(items);
    SortedIsDistinct(r);
    forall k ensures Lookup(r, k) == Lookup(items, k) {
      LookupOfPermutation(r, items, k);
    }
  }

  // ---------------------------------------------------------------------------
  // `modify_intended_for`

  /** The merge step: `IntendedFor` becomes `[]` when removing and the image
      paths otherwise, every other key keeps its value, and the keys come back
      sorted. The source assigns into the caller's dict; here a new dict is returned. */
  function ModifyIntendedFor(imagePaths: seq<Option<string>>, contents: Dict, remove: bool): (r: Dict)
    ensures SortedKeys(r)
    ensures Keys(r) == Keys(contents) + {IntendedFor}
    ensures Lookup(r, IntendedFor) == Some(if remove then Array([]) else PathList(imagePaths))
    ensures forall k :: k != IntendedFor ==> Lookup(r, k) == Lookup(contents, k)
  {
    var value := if remove then Array([]) else PathList(imagePaths);
    var updated := Assign(contents, IntendedFor, value);
    AssignDistinct(contents, IntendedFor, value);
    AssignKeys(contents, IntendedFor, value);
    AssignLookups(contents, IntendedFor, value);
    SortKeepsEntries(updated);
    Sort(updated)
  }

  lemma AssignLookups(items: seq<Entry>, k: string, v: Json)
    ensures forall k' :: Lookup(Assign(items, k, v), k') == if k' == k then Some(v) else Lookup(items, k')
  {
    forall k' ensures Lookup(Assign(items, k, v), k') == if k' == k then Some(v) else Lookup(items, k') {
      AssignLookup(items, k, v, k');
    }
  }

  /** Re-running the merge on its own output changes nothing, so a second run of
      the tool writes the same sidecar. */
  lemma ModifyIntendedForIdempotent(imagePaths: seq<Option<string>>, contents: Dict, remove: bool)
    ensures var once := ModifyIntendedFor(imagePaths, contents, remove);
            ModifyIntendedFor(imagePaths, once, remove) == once
  {
    var value := if remove then Array([]) else PathList(imagePaths);
    var once := ModifyIntendedFor(imagePaths, contents, remove);
    AssignSame(once, IntendedFor, value);
    SortSorted(once);
  }

  /** The merge depends on the dict's entries only, not on their order in the file. */
  lemma ModifyIntendedForIgnoresOrder(imagePaths: seq<Option<string>>, a: Dict, b: Dict, remove: bool)
    requires multiset(a) == multiset(b)
    ensures ModifyIntendedFor(imagePaths, a, remove) == ModifyIntendedFor(imagePaths, b, remove)
  {
    var ra := ModifyIntendedFor(imagePaths, a, remove);
    var rb := ModifyIntendedFor(imagePaths, b, remove);
    forall k ensures Lookup(ra, k) == Lookup(rb, k) {
      LookupOfPermutation(a, b, k);
    }
    SameLookupsSameEntries(ra, rb);
    SortedUnique(ra, rb);
  }

  /** Two dicts that answer every lookup alike hold the same entries. */
  lemma SameLookupsSameEntries(a: seq<Entry>, b: seq<Entry>)
    requires DistinctKeys(a) && DistinctKeys(b)
    requires forall k :: Lookup(a, k) == Lookup(b, k)
    ensures multiset(a) == multiset(b)
  {
    forall e ensures multiset(a)[e] == multiset(b)[e] {
      LookupMeans(a, e.key, e.value);
      LookupMeans(b, e.key, e.value);
      NoDuplicates(a, e);
      NoDuplicates(b, e);
    }
  }

  /** A dict holds each entry at most once. */
  lemma {:induction false} NoDuplicates(items: seq<Entry>, e: Entry)
    requires DistinctKeys(items)
    ensures multiset(items)[e] == if e in items then 1 else 0
    decreases |items|
  {
    if |items| > 0 {
      assert items == [items[0]] + items[1..];
      NoDuplicates(items[1..], e);
      if items[0] == e && e in items[1..] {
        KeyOfMember(items[1..], e);
      }
    }
  }
}
