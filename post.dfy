/** Post validation and the post context (src/core/post.ts). `validatePost`
    returns its argument or throws on the first problem it finds;
    `reducePostContext` stores a post under its title in a context object and
    returns that same object. */
module Posts {
  import opened Js
  import opened Types

  /** The categories a post may belong to, in the order the message lists them. */
  const Categories: seq<string> := ["opinion", "story", "tutorial", "concept", "review"]

  /** `R.join(', ', parts)`. */
  function JoinComma(parts: seq<string>): string
  {
    if |parts| == 0 then ""
    else if |parts| == 1 then parts[0]
    else parts[0] + ", " + JoinComma(parts[1..])
  }

  /** The list of categories as the category message prints it. */
  lemma CategoryListSpelled()
    ensures JoinComma(Categories) == "opinion" + ", " + "story" + ", " + "tutorial" + ", " + "concept" + ", " + "review"
  {
    JoinCommaFive("opinion", "story", "tutorial", "concept", "review");
  }

  /** Five parts are joined with a comma and a space between neighbours. */
  lemma JoinCommaFive(a: string, b: string, c: string, d: string, e: string)
    ensures JoinComma([a, b, c, d, e]) == a + ", " + b + ", " + c + ", " + d + ", " + e
  {
    var ps := [a, b, c, d, e];
    assert ps[1..] == [b, c, d, e] && ps[1..][1..] == [c, d, e];
    assert [c, d, e][1..] == [d, e] && [d, e][1..] == [e];
    assert JoinComma([d, e]) == d + ", " + e;
    assert JoinComma([c, d, e]) == c + ", " + (d + ", " + e);
    assert JoinComma([b, c, d, e]) == b + ", " + (c + ", " + (d + ", " + e));
  }

  const TitleRequired: string := "Field \"title\" is required"
  const SubtitleRequired: string := "Field \"subtitle\" is required"
  const PublishedIncorrect: string := "Field \"published\" is missing or incorrect"

  function CategoryRequired(): string
  {
    "Field \"category\" is required and must be one of " + JoinComma(Categories)
  }

  /** The thrown message: the problem, then the post's source path. The
      problem texts end without a space, so none separates them. */
  function ErrorFor(problem: string, sourcePath: string): (m: string)
    ensures var tail := "for post: " + sourcePath + ".";
      && |m| == |problem| + |tail| && m[..|problem|] == problem && m[|problem|..] == tail
  {
    problem + "for post: " + sourcePath + "."
  }

  /** `category` is a truthy value equal to one of the categories. */
  predicate CategoryOk(category: Value)
  {
    !Falsy(category) && category.Str? && category.s in Categories
  }

  /** The problems of a post's metadata, in the order `validatePost` checks
      them. `validDate` says whether `new Date(published)` is a valid date. */
  function Problems(validDate: Value -> bool, fm: Frontmatter): (ps: seq<string>)
    ensures |ps| <= 4
    ensures ps == [] <==> !Falsy(fm.title) && !Falsy(fm.subtitle) && validDate(fm.published) && CategoryOk(fm.category)
  {
    (if Falsy(fm.title) then [TitleRequired] else [])
    + (if Falsy(fm.subtitle) then [SubtitleRequired] else [])
    + (if !validDate(fm.published) then [PublishedIncorrect] else [])
    + (if !CategoryOk(fm.category) then [CategoryRequired()] else [])
  }

  /** `validatePost`: checks title, subtitle, published date and category in
      that order and throws on the first that fails. */
  function ValidatePost(validDate: Value -> bool, post: Post): (r: Completion<Post>)
    ensures r.Normal? <==> Problems(validDate, post.frontmatter) == []
    ensures r.Normal? ==> r.value == post
    ensures r.Thrown? ==> r.message == ErrorFor(Problems(validDate, post.frontmatter)[0], post.sourcePath)
  {
    var fm := post.frontmatter;
    if Falsy(fm.title) then Thrown(ErrorFor(TitleRequired, post.sourcePath))
    else if Falsy(fm.subtitle) then Thrown(ErrorFor(SubtitleRequired, post.sourcePath))
    else if !validDate(fm.published) then Thrown(ErrorFor(PublishedIncorrect, post.sourcePath))
    else if Falsy(fm.category) || !(fm.category.Str? && fm.category.s in Categories) then
      Thrown(ErrorFor(CategoryRequired(), post.sourcePath))
    else Normal(post)
  }

  /** Only the first problem is reported: a post without a title is reported
      for its title, whatever else is wrong with it. */
  lemma FailFast(validDate: Value -> bool, post: Post)
    requires Falsy(post.frontmatter.title)
    ensures ValidatePost(validDate, post) == Thrown(ErrorFor(TitleRequired, post.sourcePath))
  {
  }

  /** Every message names the post's source path at its end. */
  lemma MessageEndsWithSource(validDate: Value -> bool, post: Post)
    requires ValidatePost(validDate, post).Thrown?
    ensures var m := ValidatePost(validDate, post).message;
      var tail := "for post: " + post.sourcePath + ".";
      |m| >= |tail| && m[|m| - |tail|..] == tail
  {
  }

  /** The key a post is stored under: its title, as a property key. */
  function TitleKey(post: Post): string
  {
    ToStr(post.frontmatter.title)
  }

  /** One `reducePostContext` step on the stored posts: the post lands under
      its title, replacing an earlier post with that title, and every other
      title keeps its post. */
  function AddPost(posts: map<string, Post>, post: Post): (r: map<string, Post>)
    ensures r.Keys == posts.Keys + {TitleKey(post)}
    ensures r[TitleKey(post)] == post
    ensures forall k | k in posts && k != TitleKey(post) :: r[k] == posts[k]
  {
    posts[TitleKey(post) := post]
  }

  /** The stored posts after `reducePostContext` has seen `ps` in order, as
      `scan` folds the stream of posts. */
  function FoldPosts(posts: map<string, Post>, ps: seq<Post>): map<string, Post>
    decreases |ps|
  {
    if |ps| == 0 then posts else FoldPosts(AddPost(posts, ps[0]), ps[1..])
  }

  /** A title is stored after the fold exactly when it was stored before or
      some post of the sequence carries it. */
  lemma {:induction false} FoldPostsKeys(posts: map<string, Post>, ps: seq<Post>, k: string)
    ensures k in FoldPosts(posts, ps) <==> k in posts || exists i | 0 <= i < |ps| :: TitleKey(ps[i]) == k
    decreases |ps|
  {
    if |ps| > 0 {
      FoldPostsKeys(AddPost(posts, ps[0]), ps[1..], k);
      if exists i | 0 <= i < |ps[1..]| :: TitleKey(ps[1..][i]) == k {
        var i :| 0 <= i < |ps[1..]| && TitleKey(ps[1..][i]) == k;
        assert TitleKey(ps[i + 1]) == k;
      }
      if exists i | 0 <= i < |ps| :: TitleKey(ps[i]) == k {
        var i :| 0 <= i < |ps| && TitleKey(ps[i]) == k;
        if i > 0 { assert ps[1..][i - 1] == ps[i]; }
      }
    }
  }

  /** Last write wins: the post stored under a title is the last post of the
      sequence that carries it. */
  lemma {:induction false} FoldPostsLast(posts: map<string, Post>, ps: seq<Post>, i: int)
    requires 0 <= i < |ps|
    requires forall j | i < j < |ps| :: TitleKey(ps[j]) != TitleKey(ps[i])
    ensures TitleKey(ps[i]) in FoldPosts(posts, ps)
    ensures FoldPosts(posts, ps)[TitleKey(ps[i])] == ps[i]
    decreases |ps|
  {
    if i == 0 {
      FoldPostsUntouched(AddPost(posts, ps[0]), ps[1..], TitleKey(ps[0]));
    } else {
      forall j | i - 1 < j < |ps[1..]| ensures TitleKey(ps[1..][j]) != TitleKey(ps[1..][i - 1]) {
        assert ps[1..][j] == ps[j + 1];
      }
      FoldPostsLast(AddPost(posts, ps[0]), ps[1..], i - 1);
    }
  }

  /** A title no post of the sequence carries keeps what it had. */
  lemma {:induction false} FoldPostsUntouched(posts: map<string, Post>, ps: seq<Post>, k: string)
    requires forall j | 0 <= j < |ps| :: TitleKey(ps[j]) != k
    ensures k in FoldPosts(posts, ps) <==> k in posts
    ensures k in posts ==> FoldPosts(posts, ps)[k] == posts[k]
    decreases |ps|
  {
    if |ps| > 0 {
      forall j | 0 <= j < |ps[1..]| ensures TitleKey(ps[1..][j]) != k {
        assert ps[1..][j] == ps[j + 1];
      }
      FoldPostsUntouched(AddPost(posts, ps[0]), ps[1..], k);
    }
  }

  /** `PostContext`: the object `{posts: {}}` the reducer updates in place. */
  class PostContext {
    var posts: map<string, Post>

    /** `{posts: {}}`. */
    constructor ()
      ensures posts == map[]
    {
      posts := map[];
    }

    /** `reducePostContext(context, post)`: assigns the post under its title
        and returns the same object. */
    method Reduce(post: Post) returns (r: PostContext)
      modifies this
      ensures r == this
      ensures posts == AddPost(old(posts), post)
    {
      posts := posts[TitleKey(post) := post];
      r := this;
    }
  }

  /** `scan(reducePostContext, {posts: {}})` over a finite sequence of posts:
      one context object, updated once per post. */
  method ScanPosts(ps: seq<Post>) returns (context: PostContext)
    ensures fresh(context)
    ensures context.posts == FoldPosts(map[], ps)
  {
    context := new PostContext();
    var i := 0;
    while i < |ps|
      invariant 0 <= i <= |ps|
      invariant fresh(context)
      invariant FoldPosts(context.posts, ps[i..]) == FoldPosts(map[], ps)
    {
      assert ps[i..][1..] == ps[i + 1..];
      context := context.Reduce(ps[i]);
      i := i + 1;
    }
  }
}
