/** The earlier draft of the pipeline (src/scribey.ts): posts are built
    without exception handling, one throwing page aborts the whole page
    batch, and the style entry and post layout are fixed file names inside
    the configured directories. */
module Scribey {
  import opened Js
  import opened Paths
  import opened Types
  import opened Validation
  import opened Pages
  import opened Posts
  import Scribe

  /** The `TypeError` Node's `path.join` raises on an argument that is not a
      string. */
  const PathTypeError: string := "The \"path\" argument must be of type string"

  /** `fileToPost`: HTML first, then front matter, and the post is written to
      `path.join(destinationDirectory, slug, '.html')`; nothing is caught, and
      a slug that is not a string makes `path.join` throw. */
  function FileToPost(
    toFrontmatter: File -> Completion<Frontmatter>,
    toHtml: File -> Completion<string>,
    destinationDirectory: string,
    file: File): (r: Completion<Post>)
    ensures r.Normal? <==>
      toHtml(file).Normal? && toFrontmatter(file).Normal? && toFrontmatter(file).value.slug.Str?
    ensures toHtml(file).Thrown? ==> r == Thrown(toHtml(file).message)
    ensures toHtml(file).Normal? && toFrontmatter(file).Thrown? ==> r == Thrown(toFrontmatter(file).message)
    ensures r.Normal? ==>
      && r.value.frontmatter == toFrontmatter(file).value
      && r.value.content == toHtml(file).value
      && r.value.sourcePath == file.filepath
  {
    match toHtml(file)
    case Thrown(m) => Thrown(m)
    case Normal(content) =>
      match toFrontmatter(file)
      case Thrown(m) => Thrown(m)
      case Normal(frontmatter) =>
        if !frontmatter.slug.Str? then Thrown(PathTypeError)
        else Normal(Post(frontmatter, content, file.filepath,
          Join3(destinationDirectory, frontmatter.slug.s, ".html")))
  }

  /** With a plain slug, this draft writes the post to `<slug>/.html`, a
      hidden file inside a directory named after the slug, where the later
      draft writes `<slug>.html`. */
  lemma DestinationSpelled(
    toFrontmatter: File -> Completion<Frontmatter>,
    toHtml: File -> Completion<string>,
    dir: seq<string>,
    file: File,
    slug: string)
    requires |dir| >= 1 && forall i | 0 <= i < |dir| :: Plain(dir[i])
    requires FileToPost(toFrontmatter, toHtml, Spell(true, dir), file).Normal?
    requires toFrontmatter(file).value.slug == Str(slug)
    requires Plain(slug)
    ensures FileToPost(toFrontmatter, toHtml, Spell(true, dir), file).value.destinationPath
         == Spell(true, dir + [slug, ".html"])
  {
    var names := [slug, ".html"];
    assert Plain(".html") by {
      assert ".html"[1] == 'h';
    }
    assert Spell(false, names) == slug + "/" + ".html" by {
      assert names[1..] == [".html"];
      assert Strings.Join([".html"], '/') == ".html";
    }
    JoinSpelled(dir, names);
    Join3AsJoin2(Spell(true, dir), slug, ".html");
  }

  /** The two drafts never agree on where a post with a plain slug goes. */
  lemma DestinationDiffers(
    toFrontmatter: File -> Completion<Frontmatter>,
    toHtml: File -> Completion<string>,
    dir: seq<string>,
    file: File,
    slug: string)
    requires |dir| >= 1 && forall i | 0 <= i < |dir| :: Plain(dir[i])
    requires FileToPost(toFrontmatter, toHtml, Spell(true, dir), file).Normal?
    requires toFrontmatter(file).value.slug == Str(slug)
    requires Plain(slug)
    ensures Scribe.FileToPost(toFrontmatter, toHtml, Spell(true, dir), file).Success?
    ensures FileToPost(toFrontmatter, toHtml, Spell(true, dir), file).value.destinationPath
         != Scribe.FileToPost(toFrontmatter, toHtml, Spell(true, dir), file).value.destinationPath
  {
    DestinationSpelled(toFrontmatter, toHtml, dir, file, slug);
    Scribe.PostDestinationSpelled(toFrontmatter, toHtml, dir, file, slug);
    var d := Spell(true, dir);
    var p := Spell(true, dir + [slug, ".html"]);
    var q := Spell(true, dir + [slug + ".html"]);
    assert (dir + [slug, ".html"])[..|dir| + 1] == dir + [slug];
    SplitAtLastAs(dir + [slug, ".html"], Spell(true, dir + [slug]), ".html");
    assert (dir + [slug])[..|dir|] == dir;
    SplitAtLastAs(dir + [slug], d, slug);
    assert (dir + [slug + ".html"])[..|dir|] == dir;
    SplitAtLastAs(dir + [slug + ".html"], d, slug + ".html");
    assert |p| == |q| + 1;
  }

  /** `results` followed by whatever the rest of the batch produces. */
  function Prefixed(results: seq<File>, rest: Completion<seq<File>>): Completion<seq<File>>
  {
    match rest
    case Thrown(m) => Thrown(m)
    case Normal(more) => Normal(results + more)
  }

  /** The batch without isolation: the compiled files in page order, or the
      first page's throw, which ends the batch. */
  function CompileAborting(
    compile: (Page, map<string, Post>) -> Completion<File>,
    pages: seq<Page>,
    posts: map<string, Post>): Completion<seq<File>>
    decreases |pages|
  {
    if |pages| == 0 then Normal([])
    else
      match compile(pages[0], posts)
      case Thrown(m) => Thrown(m)
      case Normal(file) => Prefixed([file], CompileAborting(compile, pages[1..], posts))
  }

  /** `compilePages(compilePage)([pageContext, postContext])`: loops over the
      context's pages and pushes each compiled file; a throw leaves the loop
      and the call. */
  method CompilePages(
    compile: (Page, map<string, Post>) -> Completion<File>,
    pageContext: PageContext,
    postContext: PostContext) returns (r: Completion<seq<File>>)
    requires pageContext.Valid()
    ensures r == CompileAborting(compile, pageContext.Values(), postContext.posts)
  {
    var values := pageContext.Values();
    var posts := postContext.posts;
    var result: seq<File> := [];
    var i := 0;
    assert values[0..] == values;
    var whole := CompileAborting(compile, values, posts);
    if whole.Normal? {
      assert [] + whole.value == whole.value;
    }
    while i < |values|
      invariant 0 <= i <= |values|
      invariant CompileAborting(compile, values, posts) == Prefixed(result, CompileAborting(compile, values[i..], posts))
    {
      assert values[i..][1..] == values[i + 1..];
      match compile(values[i], posts) {
        case Thrown(m) =>
          assert CompileAborting(compile, values[i..], posts) == Thrown(m);
          return Thrown(m);
        case Normal(file) =>
          var rest := CompileAborting(compile, values[i + 1..], posts);
          if rest.Normal? {
            assert result + ([file] + rest.value) == (result + [file]) + rest.value;
          }
          result := result + [file];
      }
      i := i + 1;
    }
    assert values[i..] == [];
    assert result + [] == result;
    r := Normal(result);
  }

  /** Against the isolated batch of the later draft: this batch succeeds
      exactly when every page compiles, then yields the same files in the
      same order; otherwise it throws the message of the first failing
      page. */
  lemma {:induction false} AbortingAgreesIsolated(
    compile: (Page, map<string, Post>) -> Completion<File>,
    pages: seq<Page>,
    posts: map<string, Post>)
    ensures var a := CompileAborting(compile, pages, posts); var rs := Scribe.CompileIsolated(compile, pages, posts);
      && (a.Normal? <==> forall i | 0 <= i < |rs| :: rs[i].Success?)
      && (a.Normal? ==> |a.value| == |rs| && forall i | 0 <= i < |rs| :: a.value[i] == rs[i].value)
      && (a.Thrown? ==> exists i | 0 <= i < |rs| ::
            rs[i] == Failure([a.message]) && forall j | 0 <= j < i :: rs[j].Success?)
    decreases |pages|
  {
    var a := CompileAborting(compile, pages, posts);
    var rs := Scribe.CompileIsolated(compile, pages, posts);
    if |pages| > 0 {
      var rest := pages[1..];
      AbortingAgreesIsolated(compile, rest, posts);
      var rs1 := Scribe.CompileIsolated(compile, rest, posts);
      assert forall i | 0 <= i < |rs1| :: rs1[i] == rs[i + 1];
      match compile(pages[0], posts)
      case Thrown(m) =>
        assert rs[0] == Failure([m]);
      case Normal(file) =>
        assert rs[0] == Success(file);
        var b := CompileAborting(compile, rest, posts);
        if b.Thrown? {
          var i :| 0 <= i < |rs1| && rs1[i] == Failure([b.message]) && forall j | 0 <= j < i :: rs1[j].Success?;
          assert rs[i + 1] == Failure([a.message]);
          forall j | 0 <= j < i + 1 ensures rs[j].Success? {
            if j > 0 {
              assert rs[j] == rs1[j - 1];
            }
          }
        } else {
          assert forall i | 1 <= i < |rs| :: rs[i] == rs1[i - 1];
        }
    }
  }

  /** `path.join(styles, 'index.scss')`: the stylesheet entry. */
  function StyleIndex(styles: string): string
  {
    Join2(styles, "index.scss")
  }

  /** `path.join(layouts, 'post.pug')`: the post layout. */
  function LayoutPath(layouts: string): string
  {
    Join2(layouts, "post.pug")
  }

  /** The entry and the layout are the fixed names directly inside their
      directories. */
  lemma FixedNamesSpelled(styles: seq<string>, layouts: seq<string>)
    requires |styles| >= 1 && forall i | 0 <= i < |styles| :: Plain(styles[i])
    requires |layouts| >= 1 && forall i | 0 <= i < |layouts| :: Plain(layouts[i])
    ensures StyleIndex(Spell(true, styles)) == Spell(true, styles + ["index.scss"])
    ensures LayoutPath(Spell(true, layouts)) == Spell(true, layouts + ["post.pug"])
  {
    assert Spell(false, ["index.scss"]) == "index.scss";
    assert Spell(false, ["post.pug"]) == "post.pug";
    JoinSpelled(styles, ["index.scss"]);
    JoinSpelled(layouts, ["post.pug"]);
  }
}
