/** Small shared vocabulary: optional values, strings, shifted indices, and the order in which a Go `range` visits a
    set. */
module Prelude {

  datatype Option<+T> = None | Some(value: T)

  predicate StartsWith(s: string, prefix: string) {
    |prefix| <= |s| && s[..|prefix|] == prefix
  }

  predicate Contains(s: string, sub: string) {
    exists i :: 0 <= i <= |s| && StartsWith(s[i..], sub)
  }

  /** An index as a restored store hands it out: lower by the gap when it was given after `base`. */
  function ShiftIndex(i: nat, base: nat, gap: nat): nat
    requires gap <= base
  {
    if i <= base then i else i - gap
  }

  predicate NoDup<T(==)>(s: seq<T>) {
    forall i, j :: 0 <= i < j < |s| ==> s[i] != s[j]
  }

  /** `order` visits every element of `S` exactly once, as a `range` over a Go map or set does. */
  ghost predicate Enumerates<T>(order: seq<T>, S: set<T>) {
    && (forall i, j :: 0 <= i < j < |order| ==> order[i] != order[j])
    && (set x | x in order) == S
  }

  lemma {:induction false} EnumerationLength<T>(order: seq<T>, S: set<T>)
    requires Enumerates(order, S)
    ensures |order| == |S|
  {
    if order == [] {
      assert S == {};
    } else {
      var last := order[|order| - 1];
      var rest := order[..|order| - 1];
      assert last in S;
      assert Enumerates(rest, S - {last}) by {
        forall x ensures x in rest <==> x in S - {last} {
          if x in rest {
            assert x in order;
          }
          if x in S - {last} {
            assert x in order;
            var i :| 0 <= i < |order| && order[i] == x;
            assert rest[i] == x;
          }
        }
      }
      EnumerationLength(rest, S - {last});
    }
  }

  lemma EnumerationMembers<T>(order: seq<T>, S: set<T>)
    requires Enumerates(order, S)
    ensures forall x :: x in order <==> x in S
  {
    assert forall x :: x in order <==> x in (set y | y in order);
  }

  /** A set with at most one element can be visited in one order only. */
  lemma SingletonOrder<T>(a: seq<T>, b: seq<T>, S: set<T>)
    requires Enumerates(a, S) && Enumerates(b, S)
    requires |S| <= 1
    ensures a == b
  {
    EnumerationLength(a, S);
    EnumerationLength(b, S);
    if |a| == 1 {
      assert a[0] in S && b[0] in S;
      SubsetSize({a[0], b[0]}, S);
    }
  }

  lemma {:induction false} SubsetSize<T>(A: set<T>, B: set<T>)
    requires A <= B
    ensures |A| <= |B|
  {
    if A != {} {
      var x :| x in A;
      SubsetSize(A - {x}, B - {x});
    }
  }

  /** The sequence without the first occurrence of `x`. */
  function RemoveFirst(s: seq<string>, x: string): seq<string> {
    if |s| == 0 then [] else if s[0] == x then s[1..] else [s[0]] + RemoveFirst(s[1..], x)
  }

  lemma {:induction false} RemoveFirstContents(s: seq<string>, x: string)
    requires NoDup(s)
    ensures NoDup(RemoveFirst(s, x))
    ensures forall y :: y in RemoveFirst(s, x) <==> y in s && y != x
  {
    if |s| > 0 {
      assert s == [s[0]] + s[1..];
      if s[0] == x {
        assert x !in s[1..];
      } else {
        RemoveFirstContents(s[1..], x);
        assert s[0] !in s[1..];
        assert s[0] !in RemoveFirst(s[1..], x);
      }
    }
  }

  lemma {:induction false} SpliceIsRemoveFirst(ids: seq<string>, id: string, i: nat)
    requires i < |ids| && ids[i] == id && id !in ids[..i]
    ensures RemoveFirst(ids, id) == ids[..i] + ids[i + 1..]
  {
    if i > 0 {
      assert ids[0] == ids[..i][0];
      assert ids[1..][..i - 1] == ids[..i][1..];
      SpliceIsRemoveFirst(ids[1..], id, i - 1);
    }
  }

  lemma {:induction false} AbsentIsKept(ids: seq<string>, id: string)
    requires id !in ids
    ensures RemoveFirst(ids, id) == ids
  {
    if |ids| > 0 {
      AbsentIsKept(ids[1..], id);
    }
  }

  /** The loop that cuts the first occurrence of `id` out of a slice. */
  method Unlist(ids: seq<string>, id: string) returns (left: seq<string>)
    ensures left == RemoveFirst(ids, id)
  {
    for i := 0 to |ids|
      invariant id !in ids[..i]
    {
      if ids[i] == id {
        SpliceIsRemoveFirst(ids, id, i);
        return ids[..i] + ids[i + 1..];
      }
    }
    assert ids[..|ids|] == ids;
    AbsentIsKept(ids, id);
    left := ids;
  }
}
