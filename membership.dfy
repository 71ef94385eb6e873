/** Membership lists as the Python code keeps them: plain lists that are only
    ever grown by "append if absent" and shrunk by `list.remove`, which deletes
    the FIRST occurrence. Room, camera and detector lists all use these. */
module Membership {

  predicate NoDuplicates<T(==)>(s: seq<T>) {
    forall i, j :: 0 <= i < j < |s| ==> s[i] != s[j]
  }

  /** Index of the first occurrence of `x`. */
  function IndexOf<T(==)>(s: seq<T>, x: T): (i: nat)
    requires x in s
    ensures i < |s| && s[i] == x
    ensures forall k :: 0 <= k < i ==> s[k] != x
  {
    if s[0] == x then 0 else 1 + IndexOf(s[1..], x)
  }

  /** `if x not in s: s.append(x)` */
  function AppendIfAbsent<T(==)>(s: seq<T>, x: T): (r: seq<T>)
    ensures x in r
    ensures NoDuplicates(s) ==> NoDuplicates(r)
    ensures s <= r && |r| <= |s| + 1
    ensures x in s <==> r == s
  {
    if x in s then s else s + [x]
  }

  /** `s.remove(x)` guarded by `if x in s`: deletes the first occurrence only. */
  function RemoveFirst<T(==)>(s: seq<T>, x: T): (r: seq<T>)
    ensures x !in s ==> r == s
    ensures x in s ==> |r| == |s| - 1 && r == s[..IndexOf(s, x)] + s[IndexOf(s, x) + 1..]
  {
    if s == [] then []
    else if s[0] == x then s[1..]
    else
      var rest := RemoveFirst(s[1..], x);
      if x in s then
        IndexOfTail(s, x);
        CutAfterHead(s, IndexOf(s[1..], x));
        [s[0]] + rest
      else
        assert s == [s[0]] + s[1..];
        [s[0]] + rest
  }

  /** Past a different head, the first occurrence is one further on. */
  lemma IndexOfTail<T>(s: seq<T>, x: T)
    requires x in s && s[0] != x
    ensures x in s[1..] && IndexOf(s, x) == 1 + IndexOf(s[1..], x)
  {
    var i := IndexOf(s, x);
    assert s[1..][i - 1] == x;
  }

  /** Cutting element `j` out of the tail, then restoring the head, cuts
      element `j + 1` out of the whole. */
  lemma CutAfterHead<T>(s: seq<T>, j: nat)
    requires j + 1 < |s|
    ensures var t := s[1..]; [s[0]] + (t[..j] + t[j + 1..]) == s[..j + 1] + s[j + 2..]
  {
    var t := s[1..];
    assert s[..j + 1] == [s[0]] + t[..j];
    assert s[j + 2..] == t[j + 1..];
  }

  /** Removal keeps exactly the other members, in their order. */
  lemma {:induction false} RemoveFirstMembers<T>(s: seq<T>, x: T, y: T)
    requires y != x
    ensures y in RemoveFirst(s, x) <==> y in s
  {
    if s != [] && s[0] != x {
      RemoveFirstMembers(s[1..], x, y);
      assert s == [s[0]] + s[1..];
    }
  }

  /** On a duplicate-free list, removal takes `x` out entirely and the list
      stays duplicate-free. */
  lemma {:induction false} RemoveFirstNoDuplicates<T>(s: seq<T>, x: T)
    requires NoDuplicates(s)
    ensures NoDuplicates(RemoveFirst(s, x))
    ensures x !in RemoveFirst(s, x)
  {
    if s != [] {
      var t := s[1..];
      NoDuplicatesTail(s);
      if s[0] != x {
        RemoveFirstNoDuplicates(t, x);
        var rt := RemoveFirst(t, x);
        RemoveFirstMembers(t, x, s[0]);
        ConsNoDuplicates(s[0], rt);
      }
    }
  }

  lemma ConsNoDuplicates<T>(h: T, t: seq<T>)
    requires NoDuplicates(t) && h !in t
    ensures NoDuplicates([h] + t)
  {
    var r := [h] + t;
    forall a, b | 0 <= a < b < |r| ensures r[a] != r[b] {
      if a == 0 { assert r[b] == t[b - 1]; } else { assert r[a] == t[a - 1] && r[b] == t[b - 1]; }
    }
  }

  /** The tail of a duplicate-free list is duplicate-free and misses the head. */
  lemma NoDuplicatesTail<T>(s: seq<T>)
    requires NoDuplicates(s) && s != []
    ensures NoDuplicates(s[1..]) && s[0] !in s[1..]
  {
    var t := s[1..];
    forall a, b | 0 <= a < b < |t| ensures t[a] != t[b] { assert t[a] == s[a + 1] && t[b] == s[b + 1]; }
    forall k | 0 <= k < |t| ensures t[k] != s[0] { assert t[k] == s[k + 1]; }
  }

  /** Adding a member that was absent and then removing it restores the list. */
  lemma {:induction false} AddThenRemove<T>(s: seq<T>, x: T)
    requires x !in s
    ensures RemoveFirst(AppendIfAbsent(s, x), x) == s
  {
    if s != [] {
      assert (s + [x])[1..] == s[1..] + [x];
      AddThenRemove(s[1..], x);
    }
  }

  /** A member of a duplicate-free list occurs in it exactly once. */
  lemma {:induction false} NoDuplicatesCountsOnce<T>(s: seq<T>, x: T)
    requires NoDuplicates(s)
    ensures multiset(s)[x] == if x in s then 1 else 0
  {
    if s != [] {
      var t := s[1..];
      assert s == [s[0]] + t;
      NoDuplicatesTail(s);
      NoDuplicatesCountsOnce(t, x);
      assert multiset(s) == multiset{s[0]} + multiset(t);
    }
  }
}
