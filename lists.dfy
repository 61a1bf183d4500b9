/** The list helpers of pyexec/util/list.py, and the `all_equal` that
    pyexec/util/dependencies.py imports from it although the module does not
    define it. */
module Lists {

  predicate Distinct<T(==)>(s: seq<T>) {
    forall i, j :: 0 <= i < j < |s| ==> s[i] != s[j]
  }

  function TotalLength<T>(lists: seq<seq<T>>): nat {
    if lists == [] then 0 else |lists[0]| + TotalLength(lists[1..])
  }

  /** flatten: the sublists concatenated in order. */
  function Flatten<T>(lists: seq<seq<T>>): (r: seq<T>)
    ensures |r| == TotalLength(lists)
  {
    if lists == [] then [] else lists[0] + Flatten(lists[1..])
  }

  /** An element is in the flattened list exactly when it is in one of the sublists. */
  lemma {:induction false} FlattenMembership<T>(lists: seq<seq<T>>, x: T)
    ensures x in Flatten(lists) <==> exists i :: 0 <= i < |lists| && x in lists[i]
    decreases |lists|
  {
    if lists != [] {
      FlattenMembership(lists[1..], x);
      if x in Flatten(lists[1..]) {
        var i :| 0 <= i < |lists[1..]| && x in lists[1..][i];
        assert x in lists[i + 1];
      }
      if exists i :: 0 <= i < |lists| && x in lists[i] {
        var i :| 0 <= i < |lists| && x in lists[i];
        if i > 0 { assert x in lists[1..][i - 1]; }
      }
    }
  }

  /** Flattening distributes over concatenation of the outer list. */
  lemma {:induction false} FlattenAppend<T>(a: seq<seq<T>>, b: seq<seq<T>>)
    ensures Flatten(a + b) == Flatten(a) + Flatten(b)
    decreases |a|
  {
    if a != [] {
      assert (a + b)[1..] == a[1..] + b;
      FlattenAppend(a[1..], b);
    } else {
      assert a + b == b;
    }
  }

  /** remove_duplicates: list(OrderedDict.fromkeys(lst)), i.e. every element once,
      at the place of its first occurrence. */
  function RemoveDuplicates<T(==)>(s: seq<T>): (r: seq<T>)
    ensures Distinct(r)
    ensures forall k :: 0 <= k < |s| ==> s[k] in r
    ensures forall k :: 0 <= k < |r| ==> r[k] in s
    ensures |r| <= |s|
  {
    if s == [] then []
    else
      var r' := RemoveDuplicates(s[..|s| - 1]);
      assert forall k :: 0 <= k < |s| - 1 ==> s[k] == s[..|s| - 1][k];
      if s[|s| - 1] in r' then r' else r' + [s[|s| - 1]]
  }

  /** Position of the first occurrence of x in s. */
  function FirstIndex<T(==)>(s: seq<T>, x: T): (i: nat)
    requires x in s
    ensures i < |s| && s[i] == x
    ensures forall k :: 0 <= k < i ==> s[k] != x
  {
    if s[0] == x then 0 else 1 + FirstIndex(s[1..], x)
  }

  lemma FirstIndexPrefix<T>(s: seq<T>, n: nat, x: T)
    requires n <= |s| && x in s[..n]
    ensures x in s && FirstIndex(s, x) == FirstIndex(s[..n], x)
  {
    var i := FirstIndex(s[..n], x);
    assert s[..n][i] == s[i];
    var j := FirstIndex(s, x);
    assert j <= i;
    assert s[..n][j] == s[j];
  }

  /** The result lists the elements in the order of their first occurrences. */
  lemma {:induction false} RemoveDuplicatesKeepsFirstOrder<T>(s: seq<T>)
    ensures forall i, j :: 0 <= i < j < |RemoveDuplicates(s)| ==>
      FirstIndex(s, RemoveDuplicates(s)[i]) < FirstIndex(s, RemoveDuplicates(s)[j])
    decreases |s|
  {
    if s != [] {
      var n := |s| - 1;
      var p := s[..n];
      var r' := RemoveDuplicates(p);
      RemoveDuplicatesKeepsFirstOrder(p);
      var r := RemoveDuplicates(s);
      forall i, j | 0 <= i < j < |r|
        ensures FirstIndex(s, r[i]) < FirstIndex(s, r[j])
      {
        FirstIndexPrefix(s, n, r[i]);
        if j < |r'| {
          FirstIndexPrefix(s, n, r[j]);
        } else {
          assert r[j] == s[n] && s[n] !in p;
        }
      }
    }
  }

  /** On a list without repetitions remove_duplicates changes nothing. */
  lemma {:induction false} RemoveDuplicatesOfDistinct<T>(s: seq<T>)
    requires Distinct(s)
    ensures RemoveDuplicates(s) == s
    decreases |s|
  {
    if s != [] {
      var p := s[..|s| - 1];
      RemoveDuplicatesOfDistinct(p);
      assert s[|s| - 1] !in p;
      assert p + [s[|s| - 1]] == s;
    }
  }

  lemma RemoveDuplicatesIdempotent<T>(s: seq<T>)
    ensures RemoveDuplicates(RemoveDuplicates(s)) == RemoveDuplicates(s)
  {
    RemoveDuplicatesOfDistinct(RemoveDuplicates(s));
  }

  /** all_equal: every element equals every other one. */
  function AllEqual<T(==)>(s: seq<T>): (r: bool)
    ensures r <==> forall i, j :: 0 <= i < |s| && 0 <= j < |s| ==> s[i] == s[j]
  {
    |s| <= 1 || (s[0] == s[1] && AllEqual(s[1..]))
  }
}
