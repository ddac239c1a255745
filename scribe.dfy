/** The per-document steps of the build pipeline (src/scribe.ts): a source
    file becomes a post, pages are compiled one by one with each failure kept
    to its own page, partial templates are filtered out of the page stream,
    and the output locations are derived from the destination directory.
    The renderers and the front-matter reader are parameters. */
module Scribe {
  import opened Js
  import opened Paths
  import opened Types
  import opened Validation
  import opened Pages
  import opened Posts

  /** `fileToPost`: front matter first, then HTML; a throw from either becomes
      a failure carrying its message, so the function itself never throws.
      The post is written to `<slug>.html` in the destination directory. */
  function FileToPost(
    toFrontmatter: File -> Completion<Frontmatter>,
    toHtml: File -> Completion<string>,
    destinationDirectory: string,
    file: File): (r: Validation<Post>)
    ensures r.Success? <==> toFrontmatter(file).Normal? && toHtml(file).Normal?
    ensures toFrontmatter(file).Thrown? ==> r == Failure([toFrontmatter(file).message])
    ensures toFrontmatter(file).Normal? && toHtml(file).Thrown? ==> r == Failure([toHtml(file).message])
    ensures r.Success? ==>
      && r.value.frontmatter == toFrontmatter(file).value
      && r.value.content == toHtml(file).value
      && r.value.sourcePath == file.filepath
  {
    Catch(FileToPostOrThrow(toFrontmatter, toHtml, destinationDirectory, file))
  }

  /** The body of the `try` block. */
  function FileToPostOrThrow(
    toFrontmatter: File -> Completion<Frontmatter>,
    toHtml: File -> Completion<string>,
    destinationDirectory: string,
    file: File): Completion<Post>
  {
    match toFrontmatter(file)
    case Thrown(m) => Thrown(m)
    case Normal(frontmatter) =>
      match toHtml(file)
      case Thrown(m) => Thrown(m)
      case Normal(postContent) =>
        Normal(Post(frontmatter, postContent, file.filepath,
          Join2(destinationDirectory, ToStr(frontmatter.slug) + ".html")))
  }

  /** A post with a plain string slug is written to `<slug>.html` directly
      inside the destination directory. */
  lemma PostDestinationSpelled(
    toFrontmatter: File -> Completion<Frontmatter>,
    toHtml: File -> Completion<string>,
    dir: seq<string>,
    file: File,
    slug: string)
    requires |dir| >= 1 && forall i | 0 <= i < |dir| :: Plain(dir[i])
    requires FileToPost(toFrontmatter, toHtml, Spell(true, dir), file).Success?
    requires toFrontmatter(file).value.slug == Str(slug)
    requires slug != "" && '/' !in slug
    ensures FileToPost(toFrontmatter, toHtml, Spell(true, dir), file).value.destinationPath
         == Spell(true, dir + [slug + ".html"])
  {
    var name := slug + ".html";
    assert name[|name| - 1] == 'l';
    assert Plain(name);
    assert Spell(false, [name]) == name;
    JoinSpelled(dir, [name]);
  }

  /** The results of compiling every page on its own: one result per page, in
      order, each a pass of the compiled file or a fail with its message. */
  function CompileIsolated(
    compile: (Page, map<string, Post>) -> Completion<File>,
    pages: seq<Page>,
    posts: map<string, Post>): (rs: seq<Validation<File>>)
    ensures |rs| == |pages|
  {
    seq(|pages|, i requires 0 <= i < |pages| => Catch(compile(pages[i], posts)))
  }

  /** One page's result depends on that page alone: it fails exactly when its
      own compilation throws, whatever the other pages do. */
  lemma CompileIsolatedEach(
    compile: (Page, map<string, Post>) -> Completion<File>,
    pages: seq<Page>,
    posts: map<string, Post>,
    i: int)
    requires 0 <= i < |pages|
    ensures CompileIsolated(compile, pages, posts)[i].Success? <==> compile(pages[i], posts).Normal?
    ensures compile(pages[i], posts).Normal? ==>
      CompileIsolated(compile, pages, posts)[i].value == compile(pages[i], posts).value
    ensures compile(pages[i], posts).Thrown? ==>
      CompileIsolated(compile, pages, posts)[i].error == [compile(pages[i], posts).message]
  {
  }

  /** Adding pages leaves the results of the pages already there as they were. */
  lemma CompileIsolatedAppend(
    compile: (Page, map<string, Post>) -> Completion<File>,
    pages: seq<Page>,
    more: seq<Page>,
    posts: map<string, Post>)
    ensures CompileIsolated(compile, pages + more, posts)
         == CompileIsolated(compile, pages, posts) + CompileIsolated(compile, more, posts)
  {
    var a := CompileIsolated(compile, pages + more, posts);
    var b := CompileIsolated(compile, pages, posts) + CompileIsolated(compile, more, posts);
    forall i | 0 <= i < |a| ensures a[i] == b[i] {
      if i >= |pages| {
        assert (pages + more)[i] == more[i - |pages|];
      }
    }
  }

  /** `compilePages(compilePage)([pageContext, postContext])`: loops over the
      context's pages in `Object.values` order, compiling each inside its
      own `try`, and pushes one result per page. */
  method CompilePages(
    compile: (Page, map<string, Post>) -> Completion<File>,
    pageContext: PageContext,
    postContext: PostContext) returns (pages: seq<Validation<File>>)
    requires pageContext.Valid()
    ensures pages == CompileIsolated(compile, pageContext.Values(), postContext.posts)
  {
    var values := pageContext.Values();
    pages := [];
    var i := 0;
    while i < |values|
      decreases |values| - i
      invariant 0 <= i <= |values|
      invariant pages == CompileIsolated(compile, values[..i], postContext.posts)
    {
      var result := Catch(compile(values[i], postContext.posts));
      CompileIsolatedAppend(compile, values[..i], [values[i]], postContext.posts);
      assert values[..i] + [values[i]] == values[..i + 1];
      pages := pages + [result];
      i := i + 1;
    }
    assert values[..i] == values;
  }

  /** The regular expression `/.+\/_.+/` as a language: somewhere in the path
      a non-empty run of characters other than line terminators, then `/_`,
      then another such non-empty run. */
  ghost predicate MatchesPartialPattern(s: string)
  {
    exists a, b, c :: MatchSpan(s, a, b, c)
  }

  /** `s[a..c]` is a match: `s[a..b]`, then `/_` at `b`, then `s[b + 2..c]`. */
  predicate MatchSpan(s: string, a: int, b: int, c: int)
  {
    && 0 <= a < b && b + 2 < c <= |s|
    && s[b] == '/' && s[b + 1] == '_'
    && SingleLine(s[a..b]) && SingleLine(s[b + 2..c])
  }

  /** No character of `t` is a line terminator, so `.` matches each of them. */
  predicate SingleLine(t: string)
  {
    forall j | 0 <= j < |t| :: !IsLineTerminator(t[j])
  }

  /** The partial-template test, one position at a time: some `/_` has a
      character before it and one after its `_`, neither a line terminator. */
  predicate IsPartial(s: string)
  {
    exists i | 0 <= i < |s| :: PartialAt(s, i)
  }

  /** The `/` at `i` starts a match. */
  predicate PartialAt(s: string, i: int)
  {
    && 1 <= i && i + 2 < |s|
    && s[i] == '/' && s[i + 1] == '_'
    && !IsLineTerminator(s[i - 1]) && !IsLineTerminator(s[i + 2])
  }

  /** The position test and the regular expression agree on every path. */
  lemma PartialPatternIff(s: string)
    ensures IsPartial(s) <==> MatchesPartialPattern(s)
  {
    if IsPartial(s) {
      var i :| 0 <= i < |s| && PartialAt(s, i);
      assert 1 <= i && i + 2 < |s|;
      assert s[i - 1..i] == [s[i - 1]];
      assert s[i + 2..i + 3] == [s[i + 2]];
      assert MatchSpan(s, i - 1, i, i + 3);
    }
    if MatchesPartialPattern(s) {
      var a, b, c :| MatchSpan(s, a, b, c);
      assert s[a..b][b - 1 - a] == s[b - 1];
      assert s[b + 2..c][0] == s[b + 2];
      assert PartialAt(s, b);
    }
  }

  /** A template whose name starts with `_` is a partial. */
  lemma PartialExample()
    ensures IsPartial("/pages/_nav.pug")
  {
    assert PartialAt("/pages/_nav.pug", 6);
  }

  /** A `/_` at the very start of a path has nothing before it, so the path
      is not a partial. */
  lemma LeadingUnderscoreNotPartial()
    ensures !IsPartial("/_a")
  {
    forall i | 0 <= i < 3 ensures !PartialAt("/_a", i) {
    }
  }

  /** A path with no `_` after a `/` is not a partial. */
  lemma NoUnderscoreNotPartial(s: string)
    requires forall i | 0 <= i < |s| - 1 :: s[i] == '/' ==> s[i + 1] != '_'
    ensures !IsPartial(s)
  {
  }

  /** The pages the page stream emits: the template paths that are not
      partials, in order, each turned into a page. */
  function PageEvents(destination: string, paths: seq<string>): (ps: seq<Page>)
    ensures |ps| <= |paths|
    ensures forall i | 0 <= i < |ps| :: !IsPartial(ps[i].templatePath) && ps[i] == ToPage(destination, ps[i].templatePath)
  {
    if |paths| == 0 then []
    else (if IsPartial(paths[0]) then [] else [ToPage(destination, paths[0])]) + PageEvents(destination, paths[1..])
  }

  /** Every template path that is not a partial becomes a page. */
  lemma {:induction false} PageEventsKeep(destination: string, paths: seq<string>, j: int)
    requires 0 <= j < |paths| && !IsPartial(paths[j])
    ensures ToPage(destination, paths[j]) in PageEvents(destination, paths)
  {
    var rest := PageEvents(destination, paths[1..]);
    if j > 0 {
      assert paths[1..][j - 1] == paths[j];
      PageEventsKeep(destination, paths[1..], j - 1);
      ElementOfSuffix(ToPage(destination, paths[j]), rest, PageEvents(destination, paths));
    }
  }

  /** An element of a suffix of a sequence is an element of the sequence. */
  lemma ElementOfSuffix<T>(x: T, rest: seq<T>, s: seq<T>)
    requires x in rest && |rest| <= |s| && s[|s| - |rest|..] == rest
    ensures x in s
  {
    var i :| 0 <= i < |rest| && rest[i] == x;
    assert s[|s| - |rest| + i] == x;
  }

  /** The page context after the page stream has seen `paths`: the filter,
      `toPage` and `scan(reducePages, {})` run in sequence over one context
      object. */
  method ScanPages(destination: string, paths: seq<string>) returns (context: PageContext)
    ensures fresh(context)
    ensures context.Valid()
    ensures PageTable(context.pages, context.order) == FoldPages(PageTable(map[], []), PageEvents(destination, paths))
  {
    context := new PageContext();
    var i := 0;
    while i < |paths|
      invariant 0 <= i <= |paths|
      invariant fresh(context)
      invariant context.Valid()
      invariant FoldPages(PageTable(context.pages, context.order), PageEvents(destination, paths[i..]))
             == FoldPages(PageTable(map[], []), PageEvents(destination, paths))
    {
      assert paths[i..][1..] == paths[i + 1..];
      if !IsPartial(paths[i]) {
        var page := ToPage(destination, paths[i]);
        var rest := PageEvents(destination, paths[i + 1..]);
        assert ([page] + rest)[1..] == rest;
        context := context.Reduce(page);
      } else {
        assert PageEvents(destination, paths[i..]) == PageEvents(destination, paths[i + 1..]);
      }
      i := i + 1;
    }
  }

  /** No partial template reaches the page context, and every page is stored
      under its own title. */
  lemma ScannedPagesNotPartial(destination: string, paths: seq<string>)
    ensures var t := FoldPages(PageTable(map[], []), PageEvents(destination, paths));
      forall k | k in t.pages :: !IsPartial(t.pages[k].templatePath) && t.pages[k].title == k
  {
    var empty := PageTable(map[], []);
    var events := PageEvents(destination, paths);
    var t := FoldPages(empty, events);
    FoldPagesInvariant(empty, events);
    forall k | k in t.pages ensures !IsPartial(t.pages[k].templatePath) {
      FoldPagesDrawn(empty, events, k);
    }
  }

  /** `path.join(destination, 'posts')`: where posts are written. */
  function PostDestination(destination: string): string
  {
    Join2(destination, "posts")
  }

  /** `path.join(destination, 'css', 'styles.css')`: the compiled stylesheet. */
  function StyleOutputPath(destination: string): string
  {
    Join3(destination, "css", "styles.css")
  }

  /** Posts go to the `posts` directory and the stylesheet to `css/styles.css`
      under an absolute destination. */
  lemma OutputPathsSpelled(dest: seq<string>)
    requires |dest| >= 1 && forall i | 0 <= i < |dest| :: Plain(dest[i])
    ensures PostDestination(Spell(true, dest)) == Spell(true, dest + ["posts"])
    ensures StyleOutputPath(Spell(true, dest)) == Spell(true, dest + ["css", "styles.css"])
  {
    assert Spell(false, ["posts"]) == "posts";
    JoinSpelled(dest, ["posts"]);
    var names := ["css", "styles.css"];
    assert Spell(false, names) == "css" + "/" + "styles.css" by {
      assert names[1..] == ["styles.css"];
    }
    JoinSpelled(dest, names);
    Join3AsJoin2(Spell(true, dest), "css", "styles.css");
  }
}
