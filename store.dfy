/**
 * The post service: the store that holds the posts and the five handlers
 * that read or change it, with each HTTP response stood in for by a value.
 */
module Store {
  import opened Wrappers
  import opened Text
  import opened Posts
  import opened PostSearch
  import opened Sorting

  /** What a handler answers: the JSON body, with its HTTP status given by Status. */
  datatype Response =
    | PostList(posts: seq<Post>)
    | PostBody(post: Post)
    | Created(post: Post)
    | Message(message: string)
    | BadRequest(error: string)
    | NotFound(error: string)

  function Status(r: Response): int {
    match r
    case PostList(_) => 200
    case PostBody(_) => 200
    case Message(_) => 200
    case Created(_) => 201
    case BadRequest(_) => 400
    case NotFound(_) => 404
  }

  const MissingFieldsError: string := "Both 'title' and 'content' are required"
  const InvalidSortError: string := "Invalid sort field. Must be 'title' or 'content'."
  const InvalidDirectionError: string := "Invalid direction. Must be 'asc' or 'desc'."
  const PostNotFoundError: string := "Post not found"
  const DeletedPrefix: string := "Post with id "
  const DeletedSuffix: string := " has been deleted successfully."

  /** The confirmation a successful delete sends back. */
  function DeletedMessage(id: nat): (m: string)
    ensures |m| > |DeletedPrefix| + |DeletedSuffix|
    ensures m[..|DeletedPrefix|] == DeletedPrefix
    ensures m[|m| - |DeletedSuffix|..] == DeletedSuffix
  {
    DeletedPrefix + DecimalString(id) + DeletedSuffix
  }

  /** The confirmation names the deleted id in decimal, and nothing else varies. */
  lemma DeletedMessageNamesId(id: nat)
    ensures var m := DeletedMessage(id);
            |m| > |DeletedPrefix| + |DeletedSuffix| &&
            m[..|DeletedPrefix|] == DeletedPrefix &&
            m[|m| - |DeletedSuffix|..] == DeletedSuffix &&
            var digits := m[|DeletedPrefix|..|m| - |DeletedSuffix|];
            (forall i :: 0 <= i < |digits| ==> IsDigit(digits[i])) &&
            (|digits| > 1 ==> digits[0] != '0') &&
            DecimalValue(digits) == id
  {
    var m := DeletedMessage(id);
    assert m[|DeletedPrefix|..|m| - |DeletedSuffix|] == DecimalString(id);
    DecimalRoundTrip(id);
  }

  /** Python truthiness of an optional string: present and not empty. */
  predicate Truthy(v: Option<string>) {
    v.Some? && v.value != ""
  }

  function FieldName(f: Field): string {
    match f
    case Title => "title"
    case Content => "content"
  }

  /** What the `sort` and `direction` parameters of a list request ask for. */
  datatype ListQuery = InvalidSort | InvalidDirection | Unsorted | SortBy(field: Field, descending: bool)

  /**
   * The validation of `get_posts`: an empty `sort` counts as absent, the
   * direction defaults to "asc" and is compared lower-cased, and the sort
   * field is checked before the direction.
   */
  function ParseListQuery(sort: Option<string>, direction: Option<string>): (q: ListQuery)
    ensures q.SortBy? ==> sort == Some(FieldName(q.field))
    ensures q.SortBy? ==> (q.descending <==> Lower(direction.GetOr("asc")) == "desc")
    ensures q.Unsorted? ==> !Truthy(sort)
    ensures q == InvalidSort <==> Truthy(sort) && sort.value != "title" && sort.value != "content"
    ensures q == InvalidDirection <==>
              !(Truthy(sort) && sort.value != "title" && sort.value != "content") &&
              Lower(direction.GetOr("asc")) != "asc" && Lower(direction.GetOr("asc")) != "desc"
  {
    var dir := Lower(direction.GetOr("asc"));
    if Truthy(sort) && sort.value != "title" && sort.value != "content" then InvalidSort
    else if dir != "asc" && dir != "desc" then InvalidDirection
    else if !Truthy(sort) then Unsorted
    else SortBy(if sort.value == "title" then Title else Content, dir == "desc")
  }

  /** The direction is case-insensitive. */
  lemma ListQueryIgnoresDirectionCase(sort: Option<string>, direction: string)
    ensures ParseListQuery(sort, Some(Lower(direction))) == ParseListQuery(sort, Some(direction))
  {
  }

  /** A bad direction is rejected even when no sort field is given. */
  lemma ListQueryChecksDirectionWithoutSort(sort: Option<string>, direction: string)
    requires !Truthy(sort)
    ensures ParseListQuery(sort, Some(direction)) == InvalidDirection <==>
            Lower(direction) != "asc" && Lower(direction) != "desc"
  {
  }

  /** In-memory store of the posts, in their current order. */
  class PostStore {
    var posts: seq<Post>

    ghost predicate Valid()
      reads this
    {
      WellFormed(posts)
    }

    /** The store as the service starts: the three seed posts. */
    constructor ()
      ensures Valid() && posts == Seed()
    {
      posts := Seed();
      SeedWellFormed();
    }

    /** `get_posts`: validates the parameters, sorts the store in place when asked, returns it. */
    method ListPosts(sort: Option<string>, direction: Option<string>) returns (r: Response)
      requires Valid()
      modifies this
      ensures Valid()
      ensures match ParseListQuery(sort, direction)
              case InvalidSort => r == BadRequest(InvalidSortError) && posts == old(posts)
              case InvalidDirection => r == BadRequest(InvalidDirectionError) && posts == old(posts)
              case Unsorted => r == PostList(posts) && posts == old(posts)
              case SortBy(f, descending) =>
                r == PostList(posts) && multiset(posts) == multiset(old(posts)) && SortedBy(posts, f, descending)
    {
      match ParseListQuery(sort, direction)
      case InvalidSort =>
        r := BadRequest(InvalidSortError);
      case InvalidDirection =>
        r := BadRequest(InvalidDirectionError);
      case Unsorted =>
        r := PostList(posts);
      case SortBy(f, descending) =>
        var sorted := SortPosts(posts, f, descending);
        PermutationKeepsWellFormed(posts, sorted);
        posts := sorted;
        r := PostList(posts);
    }

    /** `create_post`: appends a post with the next id when title and content are both given. */
    method CreatePost(title: Option<string>, content: Option<string>) returns (r: Response)
      requires Valid()
      modifies this
      ensures Valid()
      ensures !Truthy(title) || !Truthy(content) ==> r == BadRequest(MissingFieldsError) && posts == old(posts)
      ensures Truthy(title) && Truthy(content) ==>
                r == Created(Post(NextId(old(posts)), title.value, content.value)) &&
                posts == old(posts) + [r.post]
    {
      if !Truthy(title) || !Truthy(content) {
        return BadRequest(MissingFieldsError);
      }
      var post := Post(NextId(posts), title.value, content.value);
      AppendNextKeepsWellFormed(posts, title.value, content.value);
      posts := posts + [post];
      r := Created(post);
    }

    /** `delete_post`: removes the post with the given id, or reports that there is none. */
    method DeletePost(id: nat) returns (r: Response)
      requires Valid()
      modifies this
      ensures Valid()
      ensures !HasId(old(posts), id) ==> r == NotFound(PostNotFoundError) && posts == old(posts)
      ensures HasId(old(posts), id) ==>
                r == Message(DeletedMessage(id)) &&
                |posts| == |old(posts)| - 1 &&
                (exists i :: 0 <= i < |old(posts)| && old(posts)[i].id == id &&
                             posts == old(posts)[..i] + old(posts)[i + 1..]) &&
                (forall p :: p in posts <==> p in old(posts) && p.id != id)
    {
      var found := FindById(posts, id);
      if found.None? {
        return NotFound(PostNotFoundError);
      }
      var i := found.value;
      RemoveFound(posts, id, i);
      RemoveAtKeepsOthers(posts, i);
      assert posts[i] in posts;
      posts := RemoveFirst(posts, posts[i]);
      r := Message(DeletedMessage(id));
    }

    /**
     * `update_post`: overwrites title and content of the post with the given
     * id, each only when the request carries it (an empty string does overwrite).
     */
    method UpdatePost(id: nat, title: Option<string>, content: Option<string>) returns (r: Response)
      requires Valid()
      modifies this
      ensures Valid()
      ensures !HasId(old(posts), id) ==> r == NotFound(PostNotFoundError) && posts == old(posts)
      ensures HasId(old(posts), id) ==>
                exists i :: 0 <= i < |old(posts)| && old(posts)[i].id == id &&
                            posts == old(posts)[i := Post(id, title.GetOr(old(posts)[i].title),
                                                              content.GetOr(old(posts)[i].content))] &&
                            r == PostBody(posts[i])
    {
      var found := FindById(posts, id);
      if found.None? {
        return NotFound(PostNotFoundError);
      }
      var i := found.value;
      var post := posts[i];
      var updated := Post(post.id, title.GetOr(post.title), content.GetOr(post.content));
      PatchKeepsWellFormed(posts, i, updated.title, updated.content);
      posts := posts[i := updated];
      r := PostBody(updated);
    }

    /** `search_posts`: the matching posts in stored order; the store is left as it is. */
    method SearchPosts(title: Option<string>, content: Option<string>) returns (r: Response)
      ensures r == PostList(Search(posts, title.GetOr(""), content.GetOr("")))
    {
      r := PostList(Search(posts, title.GetOr(""), content.GetOr("")));
    }
  }

  /** The seed posts ordered by title, descending. */
  function SeedByTitleDescending(): seq<Post> {
    [Seed()[2], Seed()[1], Seed()[0]]
  }

  /** Ordered by title, descending, the seed reads third, second, first post. */
  lemma SeedByTitleDescendingIsSorted()
    ensures SortedBy(SeedByTitleDescending(), Title, true)
  {
  }

  /** No two seed posts share a title key, so that order is the only sorted one. */
  lemma SeedTitleKeysDistinct()
    ensures KeysDistinct(SeedByTitleDescending(), Title)
  {
  }

  /** With the seed posts stored in any order, the next create gets id 4. */
  lemma SeedNextId(t: seq<Post>)
    requires multiset(t) == multiset(Seed())
    ensures NextId(t) == 4
  {
    NextIdOfPermutation(t, Seed());
    var seed := Seed();
    assert seed[0].id == 1 && seed[1].id == 2 && seed[2].id == 3;
  }

  lemma DeletedMessageOfFour()
    ensures DeletedMessage(4) == "Post with id 4 has been deleted successfully."
  {
    assert DecimalString(4) == [DigitChar(4)] == "4";
    calc {
      DeletedMessage(4);
      DeletedPrefix + "4" + DeletedSuffix;
      "Post with id 4 has been deleted successfully.";
    }
  }

  /** Ordering the seed by title descending only rearranges it. */
  lemma SeedByTitleDescendingIsPermutation()
    ensures multiset(SeedByTitleDescending()) == multiset(Seed())
  {
  }

  /**
   * The seed walk-through: listing sorted by title descending gives the
   * third, second and first post; creating then gets id 4, and deleting 4
   * confirms it and restores the sorted seed.
   */
  method SeedScenario() {
    var store := new PostStore();
    var listed := store.ListPosts(Some("title"), Some("desc"));
    assert ParseListQuery(Some("title"), Some("desc")) == SortBy(Title, true);
    SeedByTitleDescendingIsSorted();
    SeedTitleKeysDistinct();
    SeedByTitleDescendingIsPermutation();
    SortedUnique(SeedByTitleDescending(), store.posts, Title, true);
    assert listed == PostList(SeedByTitleDescending()) && Status(listed) == 200;
    CreateFour(store);
    DeleteFour(store);
  }

  /** Creating a post on the sorted seed gives it id 4, appended at the end. */
  method CreateFour(store: PostStore)
    requires store.Valid() && store.posts == SeedByTitleDescending()
    modifies store
    ensures store.Valid() && store.posts == SeedByTitleDescending() + [Post(4, "X", "Y")]
  {
    SeedByTitleDescendingIsPermutation();
    SeedNextId(store.posts);
    var created := store.CreatePost(Some("X"), Some("Y"));
    assert created == Created(Post(4, "X", "Y")) && Status(created) == 201;
  }

  /** Deleting id 4 again confirms with its message and leaves the sorted seed. */
  method DeleteFour(store: PostStore)
    requires store.Valid() && store.posts == SeedByTitleDescending() + [Post(4, "X", "Y")]
    modifies store
    ensures store.posts == SeedByTitleDescending()
  {
    ghost var before := store.posts;
    assert before[0].id == 3 && before[1].id == 2 && before[2].id == 1 && before[3].id == 4;
    var deleted := store.DeletePost(4);
    DeletedMessageOfFour();
    assert deleted == Message("Post with id 4 has been deleted successfully.") && Status(deleted) == 200;
    ghost var i :| 0 <= i < |before| && before[i].id == 4 && store.posts == before[..i] + before[i + 1..];
    assert i == 3;
  }
}
