/** The three list operations every form applies to its records, keyed by the
    record's local `id` (`filter`, `map` with a conditional update, `find`). */
module Lists {
  import opened Wrappers

  /** How many elements of `s` carry the key `key`. */
  function CountKey<T>(s: seq<T>, key: string, idOf: T -> string): (n: nat)
    ensures n <= |s|
    ensures n == 0 <==> forall x :: x in s ==> idOf(x) != key
  {
    if s == [] then 0
    else (if idOf(s[0]) == key then 1 else 0) + CountKey(s[1..], key, idOf)
  }

  /** `s.filter(x => idOf(x) !== key)`: the elements with another key, in order. */
  function Without<T>(s: seq<T>, key: string, idOf: T -> string): (r: seq<T>)
    ensures |r| == |s| - CountKey(s, key, idOf)
    ensures forall x :: x in r ==> x in s && idOf(x) != key
    ensures forall x :: x in s && idOf(x) != key ==> x in r
    ensures CountKey(s, key, idOf) == 0 ==> r == s
  {
    if s == [] then []
    else if idOf(s[0]) == key then Without(s[1..], key, idOf)
    else [s[0]] + Without(s[1..], key, idOf)
  }

  /** `filter` keeps every copy of a kept element and drops every copy of the
      others: the result is a sub-multiset of `s` with the key's count at 0. */
  lemma {:induction false} WithoutCounts<T>(s: seq<T>, key: string, idOf: T -> string)
    ensures multiset(Without(s, key, idOf)) <= multiset(s)
    ensures forall x :: x in s ==>
              multiset(Without(s, key, idOf))[x] == if idOf(x) == key then 0 else multiset(s)[x]
  {
    if s != [] {
      assert s == [s[0]] + s[1..];
      WithoutCounts(s[1..], key, idOf);
    }
  }

  /** `filter` keeps the order: filtering a concatenation filters each part. */
  lemma {:induction false} WithoutAppend<T>(a: seq<T>, b: seq<T>, key: string, idOf: T -> string)
    ensures Without(a + b, key, idOf) == Without(a, key, idOf) + Without(b, key, idOf)
  {
    if a == [] {
      assert a + b == b;
    } else {
      var x, t := a[0], a[1..];
      var h: seq<T> := if idOf(x) == key then [] else [x];
      assert a == [x] + t && a + b == [x] + (t + b);
      calc {
        Without(a + b, key, idOf);
        { WithoutCons(x, t + b, key, idOf); }
        h + Without(t + b, key, idOf);
        { WithoutAppend(t, b, key, idOf); }
        h + (Without(t, key, idOf) + Without(b, key, idOf));
        (h + Without(t, key, idOf)) + Without(b, key, idOf);
        { WithoutCons(x, t, key, idOf); }
        Without(a, key, idOf) + Without(b, key, idOf);
      }
    }
  }

  /** One step of `filter`: the head is kept exactly when its key differs. */
  lemma WithoutCons<T>(x: T, t: seq<T>, key: string, idOf: T -> string)
    ensures Without([x] + t, key, idOf) == (if idOf(x) == key then [] else [x]) + Without(t, key, idOf)
  {
    assert ([x] + t)[0] == x && ([x] + t)[1..] == t;
  }

  /** `s.map(x => idOf(x) === key ? f(x) : x)`: every element with the key is
      replaced by its image under `f`, every other element is kept where it is. */
  function ReplaceWhere<T>(s: seq<T>, key: string, idOf: T -> string, f: T -> T): (r: seq<T>)
    ensures |r| == |s|
    ensures forall k :: 0 <= k < |s| ==> r[k] == if idOf(s[k]) == key then f(s[k]) else s[k]
  {
    if s == [] then []
    else [if idOf(s[0]) == key then f(s[0]) else s[0]] + ReplaceWhere(s[1..], key, idOf, f)
  }

  /** `s.findIndex(x => idOf(x) === key)`, with `None` for JavaScript's `-1`:
      the position of the first element with the key. */
  function FindIndex<T>(s: seq<T>, key: string, idOf: T -> string): (r: Option<nat>)
    ensures r.None? <==> forall x :: x in s ==> idOf(x) != key
    ensures r.Some? ==> r.value < |s| && idOf(s[r.value]) == key
    ensures r.Some? ==> forall j :: 0 <= j < r.value ==> idOf(s[j]) != key
  {
    if s == [] then None
    else if idOf(s[0]) == key then Some(0)
    else match FindIndex(s[1..], key, idOf)
      case None => None
      case Some(k) => Some(k + 1)
  }

  /** Removing a key from a list whose keys are pairwise distinct drops exactly one
      element when the key is present, so a list of two or more keeps at least one. */
  lemma {:induction false} WithoutDistinct<T>(s: seq<T>, key: string, idOf: T -> string)
    requires forall i, j :: 0 <= i < j < |s| ==> idOf(s[i]) != idOf(s[j])
    ensures CountKey(s, key, idOf) <= 1
    ensures |Without(s, key, idOf)| >= |s| - 1
  {
    if s != [] {
      WithoutDistinct(s[1..], key, idOf);
      if idOf(s[0]) == key {
        assert forall x :: x in s[1..] ==> idOf(x) != key by {
          forall x | x in s[1..] ensures idOf(x) != key {
            var j :| 0 <= j < |s[1..]| && s[1..][j] == x;
            assert s[j + 1] == x;
          }
        }
      }
    }
  }

  /** The error dictionary a validation pass builds over a list, in order: an
      element with errors enters under its key (a later one with the same key
      wins), an element without errors adds nothing. */
  function ErrorsByKey<T, F>(s: seq<T>, idOf: T -> string, errorsOf: T -> map<F, string>): (r: map<string, map<F, string>>)
    ensures forall key :: key in r ==> r[key] != map[]
    ensures forall key :: key in r <==> exists k :: 0 <= k < |s| && idOf(s[k]) == key && errorsOf(s[k]) != map[]
  {
    if s == [] then map[]
    else
      var init := s[..|s| - 1];
      var last := s[|s| - 1];
      var m := ErrorsByKey(init, idOf, errorsOf);
      assert forall k :: 0 <= k < |init| ==> init[k] == s[k];
      var e := errorsOf(last);
      if e != map[] then m[idOf(last) := e] else m
  }

  /** With pairwise distinct keys, each element with errors is filed under its own
      key with exactly its errors. */
  lemma {:induction false} ErrorsByDistinctKey<T, F>(s: seq<T>, idOf: T -> string, errorsOf: T -> map<F, string>, k: nat)
    requires forall i, j :: 0 <= i < j < |s| ==> idOf(s[i]) != idOf(s[j])
    requires k < |s| && errorsOf(s[k]) != map[]
    ensures ErrorsByKey(s, idOf, errorsOf)[idOf(s[k])] == errorsOf(s[k])
  {
    var init := s[..|s| - 1];
    if k < |s| - 1 {
      assert init[k] == s[k];
      ErrorsByDistinctKey(init, idOf, errorsOf, k);
    }
  }

  /** One more element: the dictionary of a prefix grows by that element's errors. */
  lemma ErrorsByKeyStep<T, F>(s: seq<T>, i: nat, idOf: T -> string, errorsOf: T -> map<F, string>)
    requires i < |s|
    ensures ErrorsByKey(s[..i + 1], idOf, errorsOf) ==
            if errorsOf(s[i]) != map[] then ErrorsByKey(s[..i], idOf, errorsOf)[idOf(s[i]) := errorsOf(s[i])]
            else ErrorsByKey(s[..i], idOf, errorsOf)
  {
    assert s[..i + 1][..i] == s[..i];
  }

  /** The dictionary is empty exactly when no element has an error. */
  lemma ErrorsByKeyEmpty<T, F>(s: seq<T>, idOf: T -> string, errorsOf: T -> map<F, string>)
    ensures ErrorsByKey(s, idOf, errorsOf) == map[] <==> forall k :: 0 <= k < |s| ==> errorsOf(s[k]) == map[]
  {
    var r := ErrorsByKey(s, idOf, errorsOf);
    if forall k :: 0 <= k < |s| ==> errorsOf(s[k]) == map[] {
      assert r.Keys == {};
    } else {
      var k :| 0 <= k < |s| && errorsOf(s[k]) != map[];
      assert idOf(s[k]) in r;
    }
  }
}
