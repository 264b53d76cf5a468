/**
 * `POSTS.sort(key=lambda post: post[field].lower(), reverse=...)`: the stored
 * posts put in order of a lower-cased field, ascending or descending.
 */
module Sorting {
  import opened Text
  import opened Posts

  /** The two fields a list request may sort by. */
  datatype Field = Title | Content

  /** The sort key: the chosen field, lower-cased. */
  function Key(p: Post, f: Field): (k: string)
    ensures |k| == |if f == Title then p.title else p.content|
    ensures forall i :: 0 <= i < |k| ==> !IsUpper(k[i])
  {
    Lower(match f case Title => p.title case Content => p.content)
  }

  /** `p` may stand before `q`: its key is not greater (ascending) or not smaller (descending). */
  predicate InOrder(p: Post, q: Post, f: Field, descending: bool) {
    if descending then LexLe(Key(q, f), Key(p, f)) else LexLe(Key(p, f), Key(q, f))
  }

  ghost predicate SortedBy(s: seq<Post>, f: Field, descending: bool) {
    forall i, j {:trigger InOrder(s[i], s[j], f, descending)} :: 0 <= i < j < |s| ==> InOrder(s[i], s[j], f, descending)
  }

  lemma InOrderTotal(p: Post, q: Post, f: Field, descending: bool)
    ensures InOrder(p, q, f, descending) || InOrder(q, p, f, descending)
  {
    LexLeTotal(Key(p, f), Key(q, f));
  }

  lemma InOrderTransitive(p: Post, q: Post, r: Post, f: Field, descending: bool)
    requires InOrder(p, q, f, descending) && InOrder(q, r, f, descending)
    ensures InOrder(p, r, f, descending)
  {
    if descending {
      LexLeTransitive(Key(r, f), Key(q, f), Key(p, f));
    } else {
      LexLeTransitive(Key(p, f), Key(q, f), Key(r, f));
    }
  }

  /** Two posts in order both ways have the same key. */
  lemma InOrderBothWays(p: Post, q: Post, f: Field, descending: bool)
    requires InOrder(p, q, f, descending) && InOrder(q, p, f, descending)
    ensures Key(p, f) == Key(q, f)
  {
    LexLeAntisymmetric(Key(p, f), Key(q, f));
  }

  /** A post that the first post of a sorted suffix may not precede may precede all of it. */
  lemma PrecedesRest(r: seq<Post>, x: Post, p: nat, f: Field, descending: bool)
    requires SortedBy(r, f, descending) && p < |r|
    requires !InOrder(r[p], x, f, descending)
    ensures forall k {:trigger InOrder(x, r[k], f, descending)} :: p <= k < |r| ==> InOrder(x, r[k], f, descending)
  {
    InOrderTotal(r[p], x, f, descending);
    forall k | p < k < |r|
      ensures InOrder(x, r[k], f, descending)
    {
      InOrderTransitive(x, r[p], r[k], f, descending);
    }
  }

  /** Two sorted lists, every post of the first in order before every post of the second, concatenate sorted. */
  lemma SortedConcat(a: seq<Post>, b: seq<Post>, f: Field, descending: bool)
    requires SortedBy(a, f, descending) && SortedBy(b, f, descending)
    requires forall i, j {:trigger InOrder(a[i], b[j], f, descending)} :: 0 <= i < |a| && 0 <= j < |b| ==> InOrder(a[i], b[j], f, descending)
    ensures SortedBy(a + b, f, descending)
  {
    var t := a + b;
    forall i, j | 0 <= i < j < |t|
      ensures InOrder(t[i], t[j], f, descending)
    {
      if j < |a| {
        assert t[i] == a[i] && t[j] == a[j];
      } else if i < |a| {
        assert t[i] == a[i] && t[j] == b[j - |a|];
      } else {
        assert t[i] == b[i - |a|] && t[j] == b[j - |a|];
      }
    }
  }

  lemma SortedSlices(r: seq<Post>, p: nat, f: Field, descending: bool)
    requires SortedBy(r, f, descending) && p <= |r|
    ensures SortedBy(r[..p], f, descending) && SortedBy(r[p..], f, descending)
    ensures forall i, j {:trigger InOrder(r[..p][i], r[p..][j], f, descending)} :: 0 <= i < p && 0 <= j < |r| - p ==> InOrder(r[..p][i], r[p..][j], f, descending)
  {
    forall i, j | 0 <= i < p && 0 <= j < |r| - p
      ensures InOrder(r[..p][i], r[p..][j], f, descending)
    {
      assert r[..p][i] == r[i] && r[p..][j] == r[p + j];
    }
  }

  /**
   * Inserting `x` after the prefix of a sorted list whose posts may stand
   * before it keeps the list sorted.
   */
  lemma InsertKeepsSorted(r: seq<Post>, x: Post, p: nat, f: Field, descending: bool)
    requires SortedBy(r, f, descending) && p <= |r|
    requires forall k {:trigger InOrder(r[k], x, f, descending)} :: 0 <= k < p ==> InOrder(r[k], x, f, descending)
    requires p < |r| ==> !InOrder(r[p], x, f, descending)
    ensures SortedBy(r[..p] + [x] + r[p..], f, descending)
  {
    var left, right := r[..p], r[p..];
    SortedSlices(r, p, f, descending);
    if p < |r| {
      PrecedesRest(r, x, p, f, descending);
    }
    SortedConcat(left, [x], f, descending);
    forall i, j | 0 <= i < |left + [x]| && 0 <= j < |right|
      ensures InOrder((left + [x])[i], right[j], f, descending)
    {
      assert right[j] == r[p + j];
      if i == p {
        assert (left + [x])[i] == x;
      } else {
        assert (left + [x])[i] == left[i];
      }
    }
    SortedConcat(left + [x], right, f, descending);
  }

  /** The first position of a list before which `x` may be inserted: every earlier post may precede it. */
  method InsertionPoint(r: seq<Post>, x: Post, f: Field, descending: bool) returns (p: nat)
    ensures p <= |r|
    ensures forall k {:trigger InOrder(r[k], x, f, descending)} :: 0 <= k < p ==> InOrder(r[k], x, f, descending)
    ensures p < |r| ==> !InOrder(r[p], x, f, descending)
  {
    p := 0;
    while p < |r| && InOrder(r[p], x, f, descending)
      invariant 0 <= p <= |r|
      invariant forall k {:trigger InOrder(r[k], x, f, descending)} :: 0 <= k < p ==> InOrder(r[k], x, f, descending)
    {
      p := p + 1;
    }
  }

  /** Inserting a post anywhere adds exactly that post. */
  lemma InsertAddsOne(r: seq<Post>, x: Post, p: nat)
    requires p <= |r|
    ensures multiset(r[..p] + [x] + r[p..]) == multiset(r) + multiset{x}
  {
    assert r == r[..p] + r[p..];
  }

  /** Extending a prefix by one element adds that element. */
  lemma PrefixAddsOne(s: seq<Post>, i: nat)
    requires i < |s|
    ensures multiset(s[..i + 1]) == multiset(s[..i]) + multiset{s[i]}
  {
    assert s[..i + 1] == s[..i] + [s[i]];
  }

  /** Inserts `x` into a sorted list after every post that may precede it. */
  method Insert(r: seq<Post>, x: Post, f: Field, descending: bool) returns (t: seq<Post>)
    requires SortedBy(r, f, descending)
    ensures SortedBy(t, f, descending)
    ensures multiset(t) == multiset(r) + multiset{x}
  {
    var p := InsertionPoint(r, x, f, descending);
    InsertKeepsSorted(r, x, p, f, descending);
    InsertAddsOne(r, x, p);
    t := r[..p] + [x] + r[p..];
  }

  /** Insertion sort by the key: the result is sorted and holds exactly the given posts. */
  method SortPosts(s: seq<Post>, f: Field, descending: bool) returns (r: seq<Post>)
    ensures SortedBy(r, f, descending)
    ensures multiset(r) == multiset(s)
  {
    r := [];
    var i := 0;
    while i < |s|
      invariant 0 <= i <= |s|
      invariant SortedBy(r, f, descending)
      invariant multiset(r) == multiset(s[..i])
    {
      PrefixAddsOne(s, i);
      r := Insert(r, s[i], f, descending);
      i := i + 1;
    }
    assert s[..|s|] == s;
  }

  ghost predicate KeysDistinct(s: seq<Post>, f: Field) {
    forall i, j :: 0 <= i < j < |s| ==> Key(s[i], f) != Key(s[j], f)
  }

  lemma SortedTail(s: seq<Post>, f: Field, descending: bool)
    requires s != [] && SortedBy(s, f, descending)
    ensures SortedBy(s[1..], f, descending)
  {
  }

  /** Two sorted lists of the same posts with distinct keys start with the same post. */
  lemma SortedSameHead(a: seq<Post>, b: seq<Post>, f: Field, descending: bool)
    requires a != [] && SortedBy(a, f, descending) && SortedBy(b, f, descending)
    requires multiset(a) == multiset(b) && KeysDistinct(a, f)
    ensures b != [] && a[0] == b[0]
  {
    assert a[0] in multiset(b);
    assert b != [];
    assert b[0] in multiset(a);
    var j :| 0 <= j < |b| && b[j] == a[0];
    var k :| 0 <= k < |a| && a[k] == b[0];
    if j != 0 && k != 0 {
      assert InOrder(a[0], a[k], f, descending);
      assert InOrder(b[0], b[j], f, descending);
      InOrderBothWays(a[0], a[k], f, descending);
      assert false;
    }
  }

  lemma KeysDistinctTail(s: seq<Post>, f: Field)
    requires s != [] && KeysDistinct(s, f)
    ensures KeysDistinct(s[1..], f)
  {
  }

  lemma SameTails(a: seq<Post>, b: seq<Post>)
    requires a != [] && b != [] && a[0] == b[0] && multiset(a) == multiset(b)
    ensures multiset(a[1..]) == multiset(b[1..])
  {
    assert a == [a[0]] + a[1..] && b == [b[0]] + b[1..];
    assert multiset(a[1..]) == multiset(a) - multiset([a[0]]);
    assert multiset(b[1..]) == multiset(b) - multiset([b[0]]);
  }

  /** When no two posts share a key, there is only one sorted order of them. */
  lemma {:induction false} SortedUnique(a: seq<Post>, b: seq<Post>, f: Field, descending: bool)
    requires SortedBy(a, f, descending) && SortedBy(b, f, descending)
    requires multiset(a) == multiset(b) && KeysDistinct(a, f)
    ensures a == b
    decreases |a|
  {
    if a == [] {
      assert |b| == |multiset(b)| == 0;
    } else {
      SortedSameHead(a, b, f, descending);
      SameTails(a, b);
      SortedTail(a, f, descending);
      SortedTail(b, f, descending);
      KeysDistinctTail(a, f);
      SortedUnique(a[1..], b[1..], f, descending);
      assert a == [a[0]] + a[1..] && b == [b[0]] + b[1..];
    }
  }
}
