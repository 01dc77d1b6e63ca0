/**
 * Insertion-ordered sets, the way a JavaScript `Set` behaves: a
 * duplicate-free sequence in which `add` appends a new element, keeps an
 * existing one where it is, and `delete` removes an element without
 * reordering the rest. `Array.from(set)` is the sequence itself.
 */
module Members {

  predicate NoDup<T(==,!new)>(s: seq<T>) {
    forall i, j :: 0 <= i < j < |s| ==> s[i] != s[j]
  }

  /** A sequence with one more element in front is duplicate-free exactly when the rest is and does not hold it. */
  lemma NoDupCons<T(!new)>(x: T, s: seq<T>)
    ensures NoDup([x] + s) <==> x !in s && NoDup(s)
  {
    var t := [x] + s;
    if NoDup(t) {
      forall i, j | 0 <= i < j < |s| ensures s[i] != s[j] {
        assert s[i] == t[i + 1] && s[j] == t[j + 1];
      }
      forall j | 0 <= j < |s| ensures s[j] != x {
        assert t[0] == x && t[j + 1] == s[j];
      }
    }
    if x !in s && NoDup(s) {
      forall i, j | 0 <= i < j < |t| ensures t[i] != t[j] {
        assert t[j] == s[j - 1] && t[j] in s;
        if i > 0 {
          assert t[i] == s[i - 1];
        }
      }
    }
  }

  /** `set.add(x)`. */
  function Add<T(==,!new)>(s: seq<T>, x: T): (r: seq<T>)
    ensures forall y :: y in r <==> y in s || y == x
    ensures |s| <= |r| <= |s| + 1 && r[..|s|] == s
    ensures r == s <==> x in s
    ensures NoDup(s) ==> NoDup(r)
  {
    if x in s then s else s + [x]
  }

  /** `set.delete(x)`. */
  function Remove<T(==,!new)>(s: seq<T>, x: T): (r: seq<T>)
    ensures forall y :: y in r <==> y in s && y != x
    ensures |r| <= |s|
    ensures x !in s ==> r == s
    ensures NoDup(s) ==> NoDup(r)
  {
    if s == [] then []
    else if s[0] == x then Remove(s[1..], x)
    else
      var t := Remove(s[1..], x);
      assert forall i :: 0 <= i < |t| ==> t[i] in t;
      [s[0]] + t
  }

  /** In a duplicate-free sequence, deleting a member cuts out exactly its one position. */
  lemma {:induction false} RemoveCutsOut<T(!new)>(s: seq<T>, k: nat)
    requires NoDup(s) && k < |s|
    ensures Remove(s, s[k]) == s[..k] + s[k + 1..]
  {
    if k == 0 {
      assert s[k] !in s[1..] by {
        forall j | 0 <= j < |s[1..]| ensures s[1..][j] != s[0] {
          assert s[1..][j] == s[j + 1];
        }
      }
      assert s[..0] + s[1..] == s[1..];
    } else {
      assert s[1..][k - 1] == s[k];
      RemoveCutsOut(s[1..], k - 1);
      assert s[..k] + s[k + 1..] == [s[0]] + (s[1..][..k - 1] + s[1..][k..]);
    }
  }

  /**
   * The member that `Array.from(set)[0]` yields after deleting `x`: the
   * earliest-inserted element other than `x`.
   */
  lemma FirstSurvivor<T(!new)>(s: seq<T>, x: T)
    requires NoDup(s) && x in s && |s| >= 2
    ensures |Remove(s, x)| == |s| - 1
    ensures Remove(s, x)[0] == (if s[0] == x then s[1] else s[0])
  {
    var k :| 0 <= k < |s| && s[k] == x;
    RemoveCutsOut(s, k);
  }

  /** Adding then deleting the same element is the same as deleting it. */
  lemma {:induction false} RemoveAfterAdd<T(!new)>(s: seq<T>, x: T)
    ensures Remove(Add(s, x), x) == Remove(s, x)
  {
    if x !in s {
      RemoveAppended(s, x);
    }
  }

  lemma {:induction false} RemoveAppended<T(!new)>(s: seq<T>, x: T)
    ensures Remove(s + [x], x) == Remove(s, x)
  {
    if s != [] {
      assert (s + [x])[1..] == s[1..] + [x];
      RemoveAppended(s[1..], x);
    } else {
      assert Remove([x][1..], x) == [];
    }
  }
}
