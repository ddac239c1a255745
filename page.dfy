/** Pages (src/core/page.ts): a page is derived from its template path, and
    `reducePages` stores it under its title in a context object, in place. */
module Pages {
  import opened Js
  import opened Strings
  import opened Paths
  import opened Types

  /** `toPage(destinationDirectory)(templatePath)`: the title is the template's
      stem, and the page is written to `<title>.html` in the destination
      directory. */
  function ToPage(destinationDirectory: string, templatePath: string): (p: Page)
    ensures p.templatePath == templatePath
    ensures p.title == Stem(templatePath) && '/' !in p.title
    ensures p.destinationPath == Join2(destinationDirectory, p.title + ".html")
  {
    var title := Stem(templatePath);
    Page(title, templatePath, Join2(destinationDirectory, title + ".html"))
  }

  /** On a one-line file name, the title is the name up to its first `.`
      that has text after it, and the whole name when there is none. */
  lemma ToPageTitle(destinationDirectory: string, templatePath: string)
    requires forall j | 0 <= j < |Basename(templatePath)| :: !IsLineTerminator(Basename(templatePath)[j])
    ensures var b := Basename(templatePath); var t := ToPage(destinationDirectory, templatePath).title;
      && t == b[..|t|]
      && (|t| < |b| ==> b[|t|] == '.' && |t| < |b| - 1 && '.' !in t)
      && (|t| == |b| ==> forall j | 0 <= j < |b| - 1 :: b[j] != '.')
  {
    StripDotSuffixSingleLine(Basename(templatePath));
  }

  /** Appending a plain name to plain names keeps every name plain. */
  lemma PlainAppend(dir: seq<string>, name: string)
    requires forall i | 0 <= i < |dir| :: Plain(dir[i])
    requires Plain(name)
    ensures forall i | 0 <= i < |dir + [name]| :: Plain((dir + [name])[i])
  {
    forall i | 0 <= i < |dir + [name]| ensures Plain((dir + [name])[i]) {
      if i < |dir| {
        assert (dir + [name])[i] == dir[i];
      }
    }
  }

  /** The template `/.../stem.ext` becomes the page `stem`, written to
      `<destination>/stem.html`. */
  lemma ToPageSpelled(dest: seq<string>, dir: seq<string>, stem: string, ext: string)
    requires |dest| >= 1 && |dir| >= 1
    requires forall i | 0 <= i < |dest| :: Plain(dest[i])
    requires forall i | 0 <= i < |dir| :: Plain(dir[i])
    requires stem != "" && '.' !in stem && '/' !in stem && ext != "" && '/' !in ext
    requires forall j | 0 <= j < |stem + "." + ext| :: !IsLineTerminator((stem + "." + ext)[j])
    ensures var p := ToPage(Spell(true, dest), Spell(true, dir + [stem + "." + ext]));
      p.title == stem && p.destinationPath == Spell(true, dest + [stem + ".html"])
  {
    var names := dir + [stem + "." + ext];
    PlainAppend(dir, stem + "." + ext);
    StemSpelled(names, stem, ext);
    var file := stem + ".html";
    assert file[|file| - 1] == 'l';
    assert Plain(file);
    assert Spell(false, [file]) == file;
    JoinSpelled(dest, [file]);
  }

  /** The pure view of a page context: the pages by title, and the titles in
      the order `Object.values` lists them (first insertion first). */
  datatype PageTable = PageTable(pages: map<string, Page>, order: seq<string>)
  {
    /** The order lists every stored title exactly once. */
    predicate Valid()
    {
      && (forall k | k in pages :: k in order)
      && (forall i | 0 <= i < |order| :: order[i] in pages)
      && (forall i, j | 0 <= i < j < |order| :: order[i] != order[j])
    }

    /** Every page is stored under its own title. */
    predicate TitlesMatch()
    {
      forall k | k in pages :: pages[k].title == k
    }
  }

  /** One `reducePages` step: the page is stored under its title, replacing an
      earlier page with that title in its old position; a new title goes last. */
  function AddPage(t: PageTable, page: Page): (r: PageTable)
    ensures r.pages == t.pages[page.title := page]
    ensures page.title in t.pages ==> r.order == t.order
    ensures page.title !in t.pages ==> r.order == t.order + [page.title]
    ensures t.Valid() ==> r.Valid()
    ensures t.TitlesMatch() ==> r.TitlesMatch()
  {
    if page.title in t.pages then PageTable(t.pages[page.title := page], t.order)
    else PageTable(t.pages[page.title := page], t.order + [page.title])
  }

  /** The table after `reducePages` has seen `ps` in order, as `scan` folds the
      stream of pages. */
  function FoldPages(t: PageTable, ps: seq<Page>): PageTable
    decreases |ps|
  {
    if |ps| == 0 then t else FoldPages(AddPage(t, ps[0]), ps[1..])
  }

  /** Folding keeps the table well formed, and every title names its page. */
  lemma {:induction false} FoldPagesInvariant(t: PageTable, ps: seq<Page>)
    requires t.Valid() && t.TitlesMatch()
    ensures FoldPages(t, ps).Valid() && FoldPages(t, ps).TitlesMatch()
    decreases |ps|
  {
    if |ps| > 0 {
      FoldPagesInvariant(AddPage(t, ps[0]), ps[1..]);
    }
  }

  /** Last write wins: the page stored under a title is the last page of the
      sequence with that title, and titles no page carries keep their page. */
  lemma {:induction false} FoldPagesLast(t: PageTable, ps: seq<Page>, i: int)
    requires 0 <= i < |ps|
    requires forall j | i < j < |ps| :: ps[j].title != ps[i].title
    ensures ps[i].title in FoldPages(t, ps).pages
    ensures FoldPages(t, ps).pages[ps[i].title] == ps[i]
    decreases |ps|
  {
    if i == 0 {
      FoldPagesUntouched(AddPage(t, ps[0]), ps[1..], ps[0].title);
    } else {
      forall j | i - 1 < j < |ps[1..]| ensures ps[1..][j].title != ps[1..][i - 1].title {
        assert ps[1..][j] == ps[j + 1];
      }
      FoldPagesLast(AddPage(t, ps[0]), ps[1..], i - 1);
    }
  }

  /** A title no page of the sequence carries keeps its page and its place. */
  lemma {:induction false} FoldPagesUntouched(t: PageTable, ps: seq<Page>, k: string)
    requires forall j | 0 <= j < |ps| :: ps[j].title != k
    ensures k in FoldPages(t, ps).pages <==> k in t.pages
    ensures k in t.pages ==> FoldPages(t, ps).pages[k] == t.pages[k]
    ensures |t.order| <= |FoldPages(t, ps).order| && FoldPages(t, ps).order[..|t.order|] == t.order
    decreases |ps|
  {
    if |ps| > 0 {
      forall j | 0 <= j < |ps[1..]| ensures ps[1..][j].title != k {
        assert ps[1..][j] == ps[j + 1];
      }
      FoldPagesUntouched(AddPage(t, ps[0]), ps[1..], k);
      var t1 := AddPage(t, ps[0]);
      assert t1.order[..|t.order|] == t.order;
    }
  }

  /** Every page the fold stores was already stored or is one of the folded
      pages. */
  lemma {:induction false} FoldPagesDrawn(t: PageTable, ps: seq<Page>, k: string)
    requires k in FoldPages(t, ps).pages
    ensures FoldPages(t, ps).pages[k] in t.pages.Values || FoldPages(t, ps).pages[k] in ps
    decreases |ps|
  {
    if |ps| > 0 {
      var t1 := AddPage(t, ps[0]);
      FoldPagesDrawn(t1, ps[1..], k);
      var v := FoldPages(t, ps).pages[k];
      if v in t1.pages.Values {
        var k1 :| k1 in t1.pages && t1.pages[k1] == v;
        if k1 != ps[0].title {
          assert t.pages[k1] == v;
        }
      }
    }
  }

  /** `Object.values` of the context: the pages in title order. */
  function ValuesOf(t: PageTable): (vs: seq<Page>)
    requires t.Valid()
    ensures |vs| == |t.order|
    ensures forall i | 0 <= i < |vs| :: vs[i] == t.pages[t.order[i]]
  {
    seq(|t.order|, i requires 0 <= i < |t.order| => t.pages[t.order[i]])
  }

  /** `PageContext`: the object the reducer assigns into, keyed by title. */
  class PageContext {
    var pages: map<string, Page>
    var order: seq<string>

    predicate Valid()
      reads this
    {
      PageTable(pages, order).Valid()
    }

    /** `{}`. */
    constructor ()
      ensures pages == map[] && order == []
      ensures Valid()
    {
      pages := map[];
      order := [];
    }

    /** `Object.values(pages)`. */
    function Values(): seq<Page>
      reads this
      requires Valid()
    {
      ValuesOf(PageTable(pages, order))
    }

    /** `reducePages(pages, page)`: assigns the page under its title and
        returns the same object. */
    method Reduce(page: Page) returns (r: PageContext)
      requires Valid()
      modifies this
      ensures r == this
      ensures PageTable(pages, order) == AddPage(PageTable(old(pages), old(order)), page)
      ensures Valid()
    {
      if page.title !in pages {
        order := order + [page.title];
      }
      pages := pages[page.title := page];
      r := this;
    }
  }
}
