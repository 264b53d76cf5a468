/**
 * The post record, the seed data the service starts with, and the
 * operations on the stored list that the handlers share: the id invariant,
 * the next id, looking a post up by id, and `list.remove`.
 */
module Posts {
  import opened Wrappers

  /** One blog post (a `{id, title, content}` dictionary in the service). */
  datatype Post = Post(id: int, title: string, content: string)

  /** The three posts the service holds when it starts. */
  function Seed(): seq<Post> {
    [ Post(1, "First post", "This is the first post."),
      Post(2, "Second post", "This is the second post."),
      Post(3, "Third post", "This is the third post.") ]
  }

  ghost predicate IdsDistinct(s: seq<Post>) {
    forall i, j :: 0 <= i < j < |s| ==> s[i].id != s[j].id
  }

  ghost predicate IdsPositive(s: seq<Post>) {
    forall i :: 0 <= i < |s| ==> s[i].id > 0
  }

  /** The invariant of the stored list: every id is positive and no two posts share one. */
  ghost predicate WellFormed(s: seq<Post>) {
    IdsDistinct(s) && IdsPositive(s)
  }

  ghost predicate HasId(s: seq<Post>, id: int) {
    exists i :: 0 <= i < |s| && s[i].id == id
  }

  /** `max(post["id"] for post in POSTS)`: the largest id of a non-empty list. */
  function MaxId(s: seq<Post>): (m: int)
    requires s != []
    ensures HasId(s, m)
    ensures forall i :: 0 <= i < |s| ==> s[i].id <= m
  {
    if |s| == 1 then s[0].id
    else
      var rest := MaxId(s[1..]);
      if s[0].id >= rest then s[0].id else rest
  }

  /** The id create gives a new post: one more than the largest id, or 1 for an empty list. */
  function NextId(s: seq<Post>): (id: int)
    ensures forall i :: 0 <= i < |s| ==> s[i].id < id
    ensures s == [] ==> id == 1
    ensures s != [] ==> HasId(s, id - 1)
    ensures IdsPositive(s) ==> id > 0
  {
    if s != [] then MaxId(s) + 1 else 1
  }

  /** The next id depends only on which posts are stored, not on their order. */
  lemma NextIdOfPermutation(s: seq<Post>, t: seq<Post>)
    requires multiset(s) == multiset(t)
    ensures NextId(s) == NextId(t)
  {
    if s == [] {
      assert |t| == |multiset(t)| == 0;
    } else {
      assert t != [] by { assert s[0] in multiset(t); }
      var a, b := NextId(s), NextId(t);
      var i :| 0 <= i < |s| && s[i].id == a - 1;
      assert s[i] in multiset(t);
      var j :| 0 <= j < |t| && t[j].id == b - 1;
      assert t[j] in multiset(s);
    }
  }

  /**
   * `next((post for post in POSTS if post["id"] == id), None)`: the index of
   * the first post carrying `id`, or None when there is none.
   */
  function FindById(s: seq<Post>, id: int): (r: Option<nat>)
    ensures r.None? <==> !HasId(s, id)
    ensures r.Some? ==> r.value < |s| && s[r.value].id == id
    ensures r.Some? ==> forall k :: 0 <= k < r.value ==> s[k].id != id
  {
    if s == [] then None
    else if s[0].id == id then Some(0)
    else
      match FindById(s[1..], id)
      case None => None
      case Some(k) => Some(k + 1)
  }

  /** The position of the first element equal to `x` (the one `list.remove(x)` drops). */
  function FirstIndex(s: seq<Post>, x: Post): (i: nat)
    requires x in s
    ensures i < |s| && s[i] == x && x !in s[..i]
  {
    if s[0] == x then 0
    else
      var k := FirstIndex(s[1..], x);
      assert s[..k + 1] == [s[0]] + s[1..][..k];
      k + 1
  }

  /**
   * `list.remove(x)`: drops the first element equal to `x`. The service only
   * removes a post it has just found, so `x` is always present.
   */
  function RemoveFirst(s: seq<Post>, x: Post): (r: seq<Post>)
    requires x in s
    ensures |r| == |s| - 1
    ensures r == s[..FirstIndex(s, x)] + s[FirstIndex(s, x) + 1..]
  {
    if s[0] == x then s[1..]
    else
      var rest := RemoveFirst(s[1..], x);
      var k := FirstIndex(s[1..], x);
      assert s[..k + 1] == [s[0]] + s[1..][..k];
      assert s[k + 2..] == s[1..][k + 1..];
      [s[0]] + rest
  }

  /** Removing the post found by id cuts out exactly the found position. */
  lemma RemoveFound(s: seq<Post>, id: int, i: nat)
    requires FindById(s, id) == Some(i)
    ensures RemoveFirst(s, s[i]) == s[..i] + s[i + 1..]
  {
  }

  /** Removing one position of a well-formed list keeps exactly the posts with another id. */
  lemma RemoveAtKeepsOthers(s: seq<Post>, i: nat)
    requires WellFormed(s) && i < |s|
    ensures WellFormed(s[..i] + s[i + 1..])
    ensures forall p :: p in s[..i] + s[i + 1..] <==> p in s && p.id != s[i].id
  {
  }

  /** Appending a post with an id above every stored one keeps the list well-formed. */
  lemma AppendNextKeepsWellFormed(s: seq<Post>, title: string, content: string)
    requires WellFormed(s)
    ensures WellFormed(s + [Post(NextId(s), title, content)])
  {
  }

  /** Changing title and content of one post keeps the list well-formed. */
  lemma PatchKeepsWellFormed(s: seq<Post>, i: nat, title: string, content: string)
    requires WellFormed(s) && i < |s|
    ensures WellFormed(s[i := Post(s[i].id, title, content)])
  {
  }

  /** In a list with distinct ids no post occurs twice. */
  lemma {:induction false} DistinctIdsOccurOnce(s: seq<Post>, x: Post)
    requires IdsDistinct(s)
    ensures multiset(s)[x] <= 1
  {
    if s != [] {
      assert s == [s[0]] + s[1..];
      DistinctIdsOccurOnce(s[1..], x);
      if s[0] == x {
        assert x !in s[1..];
      }
    }
  }

  /** Any reordering of a well-formed list is well-formed. */
  lemma PermutationKeepsWellFormed(s: seq<Post>, t: seq<Post>)
    requires WellFormed(s) && multiset(s) == multiset(t)
    ensures WellFormed(t)
  {
    forall i | 0 <= i < |t|
      ensures t[i].id > 0
    {
      assert t[i] in multiset(s);
    }
    forall i, j | 0 <= i < j < |t|
      ensures t[i].id != t[j].id
    {
      if t[i] == t[j] {
        assert t == t[..i] + [t[i]] + t[i + 1..j] + [t[j]] + t[j + 1..];
        assert multiset(t)[t[i]] >= 2;
        DistinctIdsOccurOnce(s, t[i]);
      } else {
        assert t[i] in multiset(s) && t[j] in multiset(s);
        var a :| 0 <= a < |s| && s[a] == t[i];
        var b :| 0 <= b < |s| && s[b] == t[j];
        assert a != b;
      }
    }
  }

  lemma SeedWellFormed()
    ensures WellFormed(Seed())
  {
  }
}
