/** Sequence helpers behind the toggle handlers: `findIndex`, `splice(i, 1)` and "no duplicates". */
module Lists {

  /** No element occurs twice. */
  ghost predicate Distinct<K>(s: seq<K>) {
    forall i, j :: 0 <= i < j < |s| ==> s[i] != s[j]
  }

  /** `s.findIndex(x => x === k)`: the first position of `k`, or -1 when it does not occur. */
  function IndexOf<K(==)>(s: seq<K>, k: K): (i: int)
    ensures -1 <= i < |s|
    ensures i == -1 <==> k !in s
    ensures 0 <= i ==> s[i] == k && forall j :: 0 <= j < i ==> s[j] != k
  {
    if |s| == 0 then -1
    else if s[0] == k then 0
    else
      var j := IndexOf(s[1..], k);
      if j == -1 then -1 else j + 1
  }

  /** `s.splice(i, 1)`: drop the element at position `i`, keeping the others in order. */
  function RemoveAt<T>(s: seq<T>, i: nat): (r: seq<T>)
    requires i < |s|
    ensures |r| == |s| - 1
    ensures forall j :: 0 <= j < i ==> r[j] == s[j]
    ensures forall j :: i <= j < |r| ==> r[j] == s[j + 1]
  {
    s[..i] + s[i + 1..]
  }

  /** Removing one element from a duplicate-free sequence removes exactly that value. */
  lemma RemoveAtMembership<K>(s: seq<K>, i: nat, k: K)
    requires Distinct(s)
    requires i < |s|
    ensures Distinct(RemoveAt(s, i))
    ensures k in RemoveAt(s, i) <==> k in s && k != s[i]
  {
    var r := RemoveAt(s, i);
    if k in r {
      var j :| 0 <= j < |r| && r[j] == k;
      if j < i { assert s[j] == k; } else { assert s[j + 1] == k; }
    }
    if k in s && k != s[i] {
      var j :| 0 <= j < |s| && s[j] == k;
      if j < i { assert r[j] == k; } else { assert r[j - 1] == k; }
    }
  }

  /** Appending an absent value keeps a sequence duplicate-free. */
  lemma AppendDistinct<K>(s: seq<K>, k: K)
    requires Distinct(s)
    requires k !in s
    ensures Distinct(s + [k])
  {
  }

  /** Inserting an absent value anywhere keeps a sequence duplicate-free and adds just that value. */
  lemma InsertDistinct<K>(s: seq<K>, k: nat, x: K)
    requires Distinct(s)
    requires x !in s
    requires k <= |s|
    ensures Distinct(s[..k] + [x] + s[k..])
    ensures forall y :: y in s[..k] + [x] + s[k..] <==> y == x || y in s
  {
    var r := s[..k] + [x] + s[k..];
    assert forall i :: 0 <= i < |r| ==> r[i] == if i < k then s[i] else if i == k then x else s[i - 1];
    forall i, j | 0 <= i < j < |r|
      ensures r[i] != r[j]
    {
      if j == k { assert r[i] in s; } else if i == k { assert r[j] in s; }
    }
    assert s == s[..k] + s[k..];
  }
}
