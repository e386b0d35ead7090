/** The server's live-client list, an intrusive linked list in the source
    (list_push, list_elem_remove, list_front, list_elem_next, list_length),
    modelled as a sequence in insertion order. */
module ClientList {
  import opened Wrappers

  /** No element occurs twice: each list element is one node. */
  predicate Distinct<T(==)>(s: seq<T>)
  {
    forall i, j :: 0 <= i < j < |s| ==> s[i] != s[j]
  }

  /** list_elem_remove: the list without the node holding x. */
  function Remove<T(==)>(s: seq<T>, x: T): (r: seq<T>)
    ensures |r| <= |s|
    ensures x !in s ==> r == s
  {
    if s == [] then []
    else if s[0] == x then Remove(s[1..], x)
    else [s[0]] + Remove(s[1..], x)
  }

  /** Removal keeps exactly the nodes not holding x. */
  lemma {:induction false} RemoveContents<T>(s: seq<T>, x: T)
    ensures forall i :: 0 <= i < |Remove(s, x)| ==> Remove(s, x)[i] in s && Remove(s, x)[i] != x
    ensures forall i :: 0 <= i < |s| && s[i] != x ==> s[i] in Remove(s, x)
  {
    if s != [] {
      RemoveContents(s[1..], x);
      forall i | 0 <= i < |s| && s[i] != x ensures s[i] in Remove(s, x) {
        if i > 0 {
          assert s[i] == s[1..][i - 1];
        }
      }
    }
  }

  /** Removing a node that occurs exactly once leaves the nodes on either
      side of it, in order. */
  lemma {:induction false} RemoveSplit<T>(a: seq<T>, x: T, b: seq<T>)
    requires x !in a && x !in b
    ensures Remove(a + [x] + b, x) == a + b
  {
    var s := a + [x] + b;
    if a == [] {
      assert s[1..] == b;
    } else {
      assert s[0] == a[0] && s[1..] == a[1..] + [x] + b;
      RemoveSplit(a[1..], x, b);
      assert [a[0]] + (a[1..] + b) == a + b;
    }
  }

  /** Removing the node at position k keeps every other node in its order. */
  lemma RemoveAt<T>(s: seq<T>, k: nat)
    requires Distinct(s) && k < |s|
    ensures Remove(s, s[k]) == s[..k] + s[k + 1..]
  {
    var a, b := s[..k], s[k + 1..];
    assert s == a + [s[k]] + b;
    forall i | 0 <= i < |a| ensures a[i] != s[k] {
      assert a[i] == s[i];
    }
    forall i | 0 <= i < |b| ensures b[i] != s[k] {
      assert b[i] == s[k + 1 + i];
    }
    RemoveSplit(a, s[k], b);
  }

  /** Where an element of s with position k dropped came from. */
  lemma DropAt<T>(s: seq<T>, k: nat, i: nat)
    requires k < |s| && i < |s| - 1
    ensures (s[..k] + s[k + 1..])[i] == s[if i < k then i else i + 1]
  {
  }

  /** Removing a listed node from a distinct list leaves a distinct list
      one node shorter. */
  lemma RemoveDistinct<T>(s: seq<T>, x: T)
    requires Distinct(s) && x in s
    ensures Distinct(Remove(s, x)) && |Remove(s, x)| == |s| - 1
  {
    var k := IndexOf(s, x);
    RemoveAt(s, k);
    var r := s[..k] + s[k + 1..];
    forall i, j | 0 <= i < j < |r| ensures r[i] != r[j] {
      DropAt(s, k, i);
      DropAt(s, k, j);
    }
  }

  /** The position of the first node holding x. */
  function IndexOf<T(==)>(s: seq<T>, x: T): (i: nat)
    requires x in s
    ensures i < |s| && s[i] == x
    ensures forall j :: 0 <= j < i ==> s[j] != x
  {
    if s[0] == x then 0 else 1 + IndexOf(s[1..], x)
  }

  /** list_front. */
  function Front<T(==)>(s: seq<T>): (r: Option<T>)
    ensures r.None? <==> s == []
    ensures r.Some? ==> r.value in s && IndexOf(s, r.value) == 0
  {
    if s == [] then None else Some(s[0])
  }

  /** list_elem_next: the node after the one holding x, if any. */
  function Next<T(==)>(s: seq<T>, x: T): (r: Option<T>)
    requires x in s
    ensures r.Some? ==> r.value in s
    ensures r.None? ==> s[|s| - 1] == x
  {
    var i := IndexOf(s, x);
    if i + 1 < |s| then Some(s[i + 1]) else None
  }

  /** The nodes a caller visits by following Next from `from`, at most
      `steps` of them. */
  function Walk<T(==)>(s: seq<T>, from: Option<T>, steps: nat): seq<T>
    decreases steps
  {
    if steps == 0 then []
    else match from
      case None => []
      case Some(x) => if x in s then [x] + Walk(s, Next(s, x), steps - 1) else []
  }

  /** In a list of distinct nodes, Next of the node at k is the one at k + 1. */
  lemma NextAt<T>(s: seq<T>, k: nat)
    requires Distinct(s) && k < |s|
    ensures Next(s, s[k]) == if k + 1 < |s| then Some(s[k + 1]) else None
  {
    assert IndexOf(s, s[k]) == k;
  }

  /** In a list of distinct nodes, Next of x is the node one position
      further on, and there is none exactly when x is the last node. */
  lemma NextIndex<T>(s: seq<T>, x: T)
    requires Distinct(s) && x in s
    ensures Next(s, x).None? <==> x == s[|s| - 1]
    ensures Next(s, x).Some? ==> Next(s, x).value in s && IndexOf(s, Next(s, x).value) == IndexOf(s, x) + 1
  {
    var i := IndexOf(s, x);
    if i + 1 < |s| {
      assert IndexOf(s, s[i + 1]) == i + 1;
    }
  }

  /** Walking from the node at k visits exactly the rest of the list. */
  lemma {:induction false} WalkFrom<T>(s: seq<T>, k: nat)
    requires Distinct(s) && k <= |s|
    ensures Walk(s, if k < |s| then Some(s[k]) else None, |s| - k) == s[k..]
    decreases |s| - k
  {
    if k < |s| {
      NextAt(s, k);
      WalkFrom(s, k + 1);
      assert s[k..] == [s[k]] + s[k + 1..];
    }
  }

  /** Traversal with first/next visits every node once, in insertion order. */
  lemma TraversalVisitsAllInOrder<T>(s: seq<T>)
    requires Distinct(s)
    ensures Walk(s, Front(s), |s|) == s
  {
    WalkFrom(s, 0);
    assert Front(s) == if 0 < |s| then Some(s[0]) else None;
    assert s[0..] == s;
  }

  /** A distinct list has as many nodes as it has elements: list_length
      counts every node once. */
  lemma {:induction false} DistinctCount<T>(s: seq<T>)
    requires Distinct(s)
    ensures |set x | x in s| == |s|
  {
    if s != [] {
      var init, last := s[..|s| - 1], s[|s| - 1];
      assert Distinct(init) by {
        forall i, j | 0 <= i < j < |init| ensures init[i] != init[j] {
          assert init[i] == s[i] && init[j] == s[j];
        }
      }
      DistinctCount(init);
      assert last !in init by {
        forall i | 0 <= i < |init| ensures init[i] != last {
          assert init[i] == s[i];
        }
      }
      assert s == init + [last];
      assert (set x | x in s) == (set x | x in init) + {last};
    }
  }

  /** list_push appends one node at the back; the list stays distinct when
      the node is new. */
  lemma PushKeepsDistinct<T>(s: seq<T>, x: T)
    requires Distinct(s) && x !in s
    ensures Distinct(s + [x])
  {
  }
}
