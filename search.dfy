/**
 * The search endpoint: a filter over the stored posts by case-insensitive
 * substring queries on title and content, joined with AND.
 */
module PostSearch {
  import opened Text
  import opened Posts

  /**
   * The filter condition on one post, for queries already lower-cased: each
   * non-empty query must occur in the lower-cased field.
   */
  predicate Matches(p: Post, titleQuery: string, contentQuery: string) {
    (if titleQuery != [] then IsSubstring(titleQuery, Lower(p.title)) else true) &&
    (if contentQuery != [] then IsSubstring(contentQuery, Lower(p.content)) else true)
  }

  /** The list comprehension: the posts that match, in stored order. */
  function Filter(s: seq<Post>, titleQuery: string, contentQuery: string): (r: seq<Post>)
    ensures |r| <= |s|
    ensures forall i :: 0 <= i < |r| ==> Matches(r[i], titleQuery, contentQuery)
  {
    if s == [] then []
    else if Matches(s[0], titleQuery, contentQuery) then [s[0]] + Filter(s[1..], titleQuery, contentQuery)
    else Filter(s[1..], titleQuery, contentQuery)
  }

  /** `search_posts`: both queries are lower-cased before filtering. */
  function Search(s: seq<Post>, titleQuery: string, contentQuery: string): (r: seq<Post>)
    ensures |r| <= |s|
    ensures forall i :: 0 <= i < |r| ==> Matches(r[i], Lower(titleQuery), Lower(contentQuery))
  {
    Filter(s, Lower(titleQuery), Lower(contentQuery))
  }

  /** `a` is `b` with some elements left out and the rest in the same order. */
  ghost predicate IsSubsequence(a: seq<Post>, b: seq<Post>) {
    a == [] || (b != [] && ((a[0] == b[0] && IsSubsequence(a[1..], b[1..])) || IsSubsequence(a, b[1..])))
  }

  /** The search result keeps the stored order. */
  lemma {:induction false} FilterIsSubsequence(s: seq<Post>, titleQuery: string, contentQuery: string)
    ensures IsSubsequence(Filter(s, titleQuery, contentQuery), s)
  {
    if s != [] {
      FilterIsSubsequence(s[1..], titleQuery, contentQuery);
    }
  }

  /** Every matching post is kept as often as it is stored, every other post is dropped. */
  lemma {:induction false} FilterCounts(s: seq<Post>, titleQuery: string, contentQuery: string, x: Post)
    ensures multiset(Filter(s, titleQuery, contentQuery))[x] ==
            if Matches(x, titleQuery, contentQuery) then multiset(s)[x] else 0
  {
    if s != [] {
      assert s == [s[0]] + s[1..];
      FilterCounts(s[1..], titleQuery, contentQuery, x);
    }
  }

  /** When every stored post matches, nothing is filtered out. */
  lemma {:induction false} FilterKeepsAll(s: seq<Post>, titleQuery: string, contentQuery: string)
    requires forall i :: 0 <= i < |s| ==> Matches(s[i], titleQuery, contentQuery)
    ensures Filter(s, titleQuery, contentQuery) == s
  {
    if s != [] {
      FilterKeepsAll(s[1..], titleQuery, contentQuery);
    }
  }

  /** A search with both queries empty returns the whole store. */
  lemma SearchWithoutQueries(s: seq<Post>)
    ensures Search(s, "", "") == s
  {
    FilterKeepsAll(s, "", "");
  }

  /** The result holds exactly the stored posts that match, each as often as it is stored. */
  lemma SearchExact(s: seq<Post>, titleQuery: string, contentQuery: string)
    ensures IsSubsequence(Search(s, titleQuery, contentQuery), s)
    ensures forall x :: multiset(Search(s, titleQuery, contentQuery))[x] ==
                        if Matches(x, Lower(titleQuery), Lower(contentQuery)) then multiset(s)[x] else 0
  {
    FilterIsSubsequence(s, Lower(titleQuery), Lower(contentQuery));
    forall x {
      FilterCounts(s, Lower(titleQuery), Lower(contentQuery), x);
    }
  }

  /** The case of the queries does not matter. */
  lemma SearchIgnoresQueryCase(s: seq<Post>, titleQuery: string, contentQuery: string)
    ensures Search(s, Lower(titleQuery), Lower(contentQuery)) == Search(s, titleQuery, contentQuery)
  {
    LowerIdempotent(titleQuery);
    LowerIdempotent(contentQuery);
  }

  /**
   * The `if query else True` guards change nothing: since the empty string
   * occurs in every string, the condition is plain containment of both queries.
   */
  lemma MatchesIsContainment(p: Post, titleQuery: string, contentQuery: string)
    ensures Matches(p, titleQuery, contentQuery) <==>
            IsSubstring(titleQuery, Lower(p.title)) && IsSubstring(contentQuery, Lower(p.content))
  {
  }
}
