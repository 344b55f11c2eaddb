/** The queries the services issue against their repositories, as functions on the
    sequence of rows a table holds (in insertion order):
    find-one-by-criteria, delete-by-criteria and the number of rows a delete affects. */
module Table {
  import opened Common

  /** What a repository's `delete` reports: the number of rows removed and, for the
      guarded deletes of the user directory, a message explaining why nothing was removed. */
  datatype DeleteResult = DeleteResult(affected: nat, message: Option<string>)

  /** `findOneBy(criteria)`: some row matching the criteria, or nothing when none does.
      The model picks the first match in insertion order. */
  function FindOneBy<T>(s: seq<T>, matches: T -> bool): (r: Option<T>)
    ensures r.Some? ==> r.value in s && matches(r.value)
    ensures r.None? <==> forall x :: x in s ==> !matches(x)
  {
    if s == [] then None
    else if matches(s[0]) then Some(s[0])
    else FindOneBy(s[1..], matches)
  }

  /** `delete(criteria)`: the table after every row matching the criteria is removed.
      Each row that does not match is kept, with its multiplicity and in its order. */
  function DeleteWhere<T(!new)>(s: seq<T>, matches: T -> bool): (r: seq<T>)
    ensures |r| <= |s|
    ensures forall x :: x in r <==> x in s && !matches(x)
    ensures forall x :: multiset(r)[x] == if matches(x) then 0 else multiset(s)[x]
  {
    if s == [] then []
    else
      assert s == [s[0]] + s[1..];
      if matches(s[0]) then DeleteWhere(s[1..], matches)
      else [s[0]] + DeleteWhere(s[1..], matches)
  }

  /** The number of rows matching the criteria. */
  function CountWhere<T>(s: seq<T>, matches: T -> bool): (n: nat)
    ensures n <= |s|
    ensures n == 0 <==> forall x :: x in s ==> !matches(x)
  {
    if s == [] then 0
    else (if matches(s[0]) then 1 else 0) + CountWhere(s[1..], matches)
  }

  /** A delete removes exactly the matching rows, so the count it reports as `affected`
      is the difference in table size. */
  lemma {:induction false} DeleteWhereCount<T(!new)>(s: seq<T>, matches: T -> bool)
    ensures |DeleteWhere(s, matches)| + CountWhere(s, matches) == |s|
  {
    if s != [] {
      DeleteWhereCount(s[1..], matches);
    }
  }

  /** The keys of the rows grow strictly with insertion order (generated primary keys). */
  ghost predicate Increasing<T>(s: seq<T>, key: T -> int)
  {
    forall i, j :: 0 <= i < j < |s| ==> key(s[i]) < key(s[j])
  }

  /** In a table with increasing keys, the first row's key is below every later key. */
  lemma HeadKeyBelowTail<T>(s: seq<T>, key: T -> int)
    requires s != [] && Increasing(s, key)
    ensures Increasing(s[1..], key)
    ensures forall y :: y in s[1..] ==> key(s[0]) < key(y)
  {
    forall y | y in s[1..]
      ensures key(s[0]) < key(y)
    {
      var k :| 0 <= k < |s[1..]| && s[1..][k] == y;
      assert s[k + 1] == y;
    }
  }

  /** A row whose key is below every key of an increasing table can be put in front. */
  lemma PrependKeepsIncreasing<T>(x: T, rest: seq<T>, key: T -> int)
    requires Increasing(rest, key)
    requires forall y :: y in rest ==> key(x) < key(y)
    ensures Increasing([x] + rest, key)
  {
    var r := [x] + rest;
    forall i, j | 0 <= i < j < |r|
      ensures key(r[i]) < key(r[j])
    {
      assert r[j] == rest[j - 1];
      if i > 0 {
        assert r[i] == rest[i - 1];
      }
    }
  }

  /** Deleting rows keeps generated keys strictly increasing. */
  lemma {:induction false} DeleteWhereKeepsIncreasing<T(!new)>(s: seq<T>, matches: T -> bool, key: T -> int)
    requires Increasing(s, key)
    ensures Increasing(DeleteWhere(s, matches), key)
  {
    if s != [] {
      HeadKeyBelowTail(s, key);
      DeleteWhereKeepsIncreasing(s[1..], matches, key);
      if !matches(s[0]) {
        PrependKeepsIncreasing(s[0], DeleteWhere(s[1..], matches), key);
      }
    }
  }

  /** When keys are distinct and the criteria select one key that some row has,
      exactly one row matches: a delete by primary key affects one row. */
  lemma {:induction false} CountUniqueKey<T>(s: seq<T>, matches: T -> bool, key: T -> int, k: int)
    requires Increasing(s, key)
    requires forall x :: matches(x) <==> key(x) == k
    requires exists x :: x in s && key(x) == k
    ensures CountWhere(s, matches) == 1
  {
    if key(s[0]) == k {
      assert Increasing(s[1..], key);
      forall x | x in s[1..]
        ensures !matches(x)
      {
        var j :| 0 <= j < |s[1..]| && s[1..][j] == x;
        assert s[j + 1] == x;
      }
    } else {
      assert Increasing(s[1..], key);
      var x :| x in s && key(x) == k;
      assert x in s[1..] by {
        assert s == [s[0]] + s[1..];
      }
      CountUniqueKey(s[1..], matches, key, k);
    }
  }
}
