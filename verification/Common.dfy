/** Vocabulary shared by the models: optional values, bounds and list surgery. */
module Common {
  datatype Option<+T> = None | Some(value: T)

  function Min(a: int, b: int): int { if a < b then a else b }

  function Max(a: int, b: int): int { if a < b then b else a }

  ghost predicate NoDuplicates<T>(s: seq<T>) {
    forall i, j :: 0 <= i < j < |s| ==> s[i] != s[j]
  }

  /** Deletes the first occurrence of x, as `g_list_remove` does. */
  function RemoveFirst<T(==)>(s: seq<T>, x: T): (r: seq<T>) {
    if s == [] then []
    else if s[0] == x then s[1..]
    else [s[0]] + RemoveFirst(s[1..], x)
  }

  /** Where x is absent the list is unchanged; in a list without duplicates
      the rest keeps its order and x is gone. */
  lemma {:induction false} RemoveFirstEffect<T>(s: seq<T>, x: T)
    ensures x !in s ==> RemoveFirst(s, x) == s
    ensures forall y :: y in RemoveFirst(s, x) ==> y in s
    ensures forall y :: y in s && y != x ==> y in RemoveFirst(s, x)
    ensures NoDuplicates(s) ==> x !in RemoveFirst(s, x) && NoDuplicates(RemoveFirst(s, x))
    ensures s != [] && s[0] != x ==> RemoveFirst(s, x) != [] && RemoveFirst(s, x)[0] == s[0]
  {
    if s != [] {
      RemoveFirstEffect(s[1..], x);
      if s[0] != x {
        assert forall y :: y in s <==> y == s[0] || y in s[1..];
        if NoDuplicates(s) {
          assert s[0] !in RemoveFirst(s[1..], x);
        }
      } else {
        assert forall y :: y in s <==> y == x || y in s[1..];
      }
    }
  }

  lemma {:induction false} RemoveFirstSplit<T>(s: seq<T>, x: T) returns (k: nat)
    requires x in s
    ensures k < |s| && s[k] == x && RemoveFirst(s, x) == s[..k] + s[k + 1..]
  {
    if s[0] == x {
      k := 0;
    } else {
      k := RemoveFirstSplit(s[1..], x);
      k := k + 1;
      assert s[1..][..k - 1] == s[1..k] && s[1..][k..] == s[k + 1..];
      assert [s[0]] + s[1..k] == s[..k];
    }
  }

  function Reverse<T>(s: seq<T>): (r: seq<T>)
    ensures |r| == |s| && forall i :: 0 <= i < |s| ==> r[i] == s[|s| - 1 - i]
  {
    seq(|s|, i requires 0 <= i < |s| => s[|s| - 1 - i])
  }

  lemma {:induction false} ReverseMultiset<T>(s: seq<T>)
    ensures multiset(Reverse(s)) == multiset(s)
  {
    if s != [] {
      var n := |s| - 1;
      ReverseMultiset(s[..n]);
      assert Reverse(s) == [s[n]] + Reverse(s[..n]);
      assert s == s[..n] + [s[n]];
    }
  }
}
