/** Front matter (src/adapters/grayMatter.ts): the slug, excerpt and tag
    helpers, and the defaulting that turns what gray-matter extracted from a
    post into its `Frontmatter`. Gray-matter itself is a parameter. */
module GrayMatter {
  import opened Js
  import opened Strings
  import opened Paths
  import opened Types

  /** What a slug may contain: lower-case ASCII letters, digits, `_` and `-`. */
  predicate SlugChar(c: char)
  {
    ('a' <= c <= 'z') || ('0' <= c <= '9') || c == '_' || c == '-'
  }

  /** A character the title filter keeps: whitespace or a word character. */
  predicate SpaceOrWord(c: char)
  {
    IsSpace(c) || IsWordChar(c)
  }

  /** `R.replace(/[^\s\w]/g, '')`: only whitespace and word characters stay,
      in their order. */
  function KeepSpaceAndWord(s: string): (r: string)
    ensures |r| <= |s|
    ensures forall i | 0 <= i < |r| :: SpaceOrWord(r[i])
    ensures |s| == 1 ==> r == if SpaceOrWord(s[0]) then s else []
  {
    if |s| == 0 then ""
    else (if SpaceOrWord(s[0]) then [s[0]] else []) + KeepSpaceAndWord(s[1..])
  }

  /** A title made only of whitespace and word characters is kept whole. */
  lemma {:induction false} KeepSpaceAndWordKeeps(s: string)
    requires forall i | 0 <= i < |s| :: SpaceOrWord(s[i])
    ensures KeepSpaceAndWord(s) == s
  {
    if |s| > 0 {
      KeepSpaceAndWordKeeps(s[1..]);
    }
  }

  /** The filter works character by character: filtering a concatenation
      concatenates the filtered parts, so with the one-character case of
      `KeepSpaceAndWord` it keeps every whitespace and word character of the
      title, in order, and nothing else. */
  lemma {:induction false} KeepSpaceAndWordAppend(a: string, b: string)
    ensures KeepSpaceAndWord(a + b) == KeepSpaceAndWord(a) + KeepSpaceAndWord(b)
    decreases |a|
  {
    if |a| > 0 {
      assert (a + b)[1..] == a[1..] + b;
      KeepSpaceAndWordAppend(a[1..], b);
    } else {
      assert a + b == b;
    }
  }

  /** `R.replace(/\s/g, '-')`. */
  function DashSpaces(s: string): string
  {
    seq(|s|, i requires 0 <= i < |s| => if IsSpace(s[i]) then '-' else s[i])
  }

  /** `R.toLower` on text whose letters are all ASCII. */
  function LowerAscii(s: string): string
  {
    seq(|s|, i requires 0 <= i < |s| => AsciiLower(s[i]))
  }

  /** `titleToSlug`. */
  function TitleToSlug(title: string): (r: string)
    ensures |r| <= |title|
  {
    LowerAscii(DashSpaces(Trim(KeepSpaceAndWord(title))))
  }

  /** A slug is made of slug characters only; it has one `-` for each
      whitespace character left inside the trimmed title and no other, so it
      neither starts nor ends with `-`. */
  lemma TitleToSlugShape(title: string)
    ensures var core := Trim(KeepSpaceAndWord(title)); var r := TitleToSlug(title);
      && |r| == |core|
      && (forall i | 0 <= i < |r| :: SlugChar(r[i]))
      && (forall i | 0 <= i < |r| :: r[i] == '-' <==> IsSpace(core[i]))
      && (forall i | 0 <= i < |r| :: !IsSpace(core[i]) ==> r[i] == AsciiLower(core[i]))
      && (|r| > 0 ==> r[0] != '-' && r[|r| - 1] != '-')
  {
    var kept := KeepSpaceAndWord(title);
    TrimKeepsWords(kept);
    DashLowerShape(Trim(kept));
  }

  /** Trimming text of whitespace and word characters leaves such text. */
  lemma TrimKeepsWords(s: string)
    requires forall i | 0 <= i < |s| :: SpaceOrWord(s[i])
    ensures var core := Trim(s); forall i | 0 <= i < |core| :: SpaceOrWord(core[i])
  {
    TrimInside(s);
    SliceKeeps(s, |s| - |TrimStart(s)|, Trim(s));
  }

  /** A slice of text of whitespace and word characters is such text. */
  lemma SliceKeeps(s: string, k: nat, t: string)
    requires k + |t| <= |s| && t == s[k..k + |t|]
    requires forall i | 0 <= i < |s| :: SpaceOrWord(s[i])
    ensures forall i | 0 <= i < |t| :: SpaceOrWord(t[i])
  {
    forall i | 0 <= i < |t| ensures SpaceOrWord(t[i]) {
      assert t[i] == s[k + i];
    }
  }

  /** Dashing and lower-casing text of whitespace and word characters gives
      slug characters, with a `-` exactly where the text had whitespace. */
  lemma DashLowerShape(c: string)
    requires forall i | 0 <= i < |c| :: SpaceOrWord(c[i])
    ensures var r := LowerAscii(DashSpaces(c));
      && |r| == |c|
      && (forall i | 0 <= i < |r| :: SlugChar(r[i]))
      && (forall i | 0 <= i < |r| :: r[i] == '-' <==> IsSpace(c[i]))
      && (forall i | 0 <= i < |r| :: !IsSpace(c[i]) ==> r[i] == AsciiLower(c[i]))
  {
  }

  /** `contentToExcerpt`: the first piece of the body split at `\n`. */
  function ContentToExcerpt(content: string): (r: string)
    ensures '\n' !in r
  {
    Split(content, '\n')[0]
  }

  /** The excerpt is the body's text before its first newline, or the whole
      body when it has none. */
  lemma {:induction false} ExcerptIsFirstLine(content: string)
    ensures var r := ContentToExcerpt(content);
      && '\n' !in r
      && |r| <= |content| && r == content[..|r|]
      && (|r| < |content| ==> content[|r|] == '\n')
  {
    if |content| > 0 && content[0] != '\n' {
      ExcerptIsFirstLine(content[1..]);
    }
  }

  /** `splitTags`: the text trimmed once, then split at every `,`; the tags
      themselves are not trimmed. */
  function SplitTags(tags: string): (r: seq<string>)
    ensures |r| == Count(Trim(tags), ',') + 1
  {
    Split(Trim(tags), ',')
  }

  /** Joining the tags with `,` gives back the trimmed text. */
  lemma TagsRoundTrip(tags: string)
    ensures Join(SplitTags(tags), ',') == Trim(tags)
  {
    JoinSplit(Trim(tags), ',');
  }

  /** What gray-matter returns: the metadata object, the body, and the
      excerpt it extracted (before the first blank line). */
  datatype Matter = Matter(data: map<string, Value>, content: string, excerpt: Value)

  /** The `TypeError` `R.trim` raises on a value without a `trim` method. */
  const TrimTypeError: string := "str.trim is not a function"

  /** `fileToFrontmatter`: gray-matter parses the file's text (and may throw);
      `excerpt` falls back from the extracted excerpt to the metadata excerpt
      to the first line of the body, `slug` from the metadata slug to the
      file's stem, and `tags` from nothing to `[]`. A truthy `tags` that is
      not a string makes `R.trim` throw. */
  function FileToFrontmatter(matter: string -> Completion<Matter>, file: File): (r: Completion<Frontmatter>)
    ensures r.Thrown? <==>
      || matter(file.content).Thrown?
      || (var tags := Get(matter(file.content).value.data, "tags"); !Falsy(tags) && !tags.Str?)
    ensures matter(file.content).Thrown? ==> r.message == matter(file.content).message
  {
    match matter(file.content)
    case Thrown(m) => Thrown(m)
    case Normal(a) =>
      var meta := a.data;
      var tags := Get(meta, "tags");
      if !Falsy(tags) && !tags.Str? then Thrown(TrimTypeError)
      else
        Normal(Frontmatter(
          Get(meta, "category"),
          Or(a.excerpt, Or(Get(meta, "excerpt"), Str(ContentToExcerpt(a.content)))),
          Get(meta, "published"),
          Or(Get(meta, "slug"), Str(Stem(file.filepath))),
          Get(meta, "subtitle"),
          if Falsy(tags) then [] else SplitTags(tags.s),
          Get(meta, "title")))
  }

  /** The fields copied from the metadata, and `[]` for falsy tags. */
  lemma FrontmatterCopies(matter: string -> Completion<Matter>, file: File)
    requires FileToFrontmatter(matter, file).Normal?
    ensures var fm := FileToFrontmatter(matter, file).value; var meta := matter(file.content).value.data;
      && fm.category == Get(meta, "category") && fm.published == Get(meta, "published")
      && fm.subtitle == Get(meta, "subtitle") && fm.title == Get(meta, "title")
      && (Falsy(Get(meta, "tags")) ==> fm.tags == [])
      && (!Falsy(Get(meta, "tags")) ==> Join(fm.tags, ',') == Trim(Get(meta, "tags").s))
  {
    var meta := matter(file.content).value.data;
    if !Falsy(Get(meta, "tags")) {
      TagsRoundTrip(Get(meta, "tags").s);
    }
  }

  /** Without a metadata slug, the slug of `/.../name.md` is `name`. */
  lemma SlugFromFilepath(matter: string -> Completion<Matter>, names: seq<string>, stem: string, ext: string, content: string)
    requires |names| >= 1
    requires forall i | 0 <= i < |names| :: Plain(names[i])
    requires names[|names| - 1] == stem + "." + ext
    requires '.' !in stem && ext != ""
    requires forall j | 0 <= j < |stem + "." + ext| :: !IsLineTerminator((stem + "." + ext)[j])
    requires FileToFrontmatter(matter, File(Spell(true, names), content)).Normal?
    requires Falsy(Get(matter(content).value.data, "slug"))
    ensures FileToFrontmatter(matter, File(Spell(true, names), content)).value.slug == Str(stem)
  {
    StemSpelled(names, stem, ext);
  }

  /** A truthy metadata slug is kept as it is. */
  lemma SlugFromMetadata(matter: string -> Completion<Matter>, file: File)
    requires FileToFrontmatter(matter, file).Normal?
    requires !Falsy(Get(matter(file.content).value.data, "slug"))
    ensures FileToFrontmatter(matter, file).value.slug == Get(matter(file.content).value.data, "slug")
  {
  }

  /** With neither an extracted nor a metadata excerpt, the excerpt is the
      body's first line. */
  lemma ExcerptFromBody(matter: string -> Completion<Matter>, file: File)
    requires FileToFrontmatter(matter, file).Normal?
    requires Falsy(matter(file.content).value.excerpt)
    requires Falsy(Get(matter(file.content).value.data, "excerpt"))
    ensures var e := FileToFrontmatter(matter, file).value.excerpt; var body := matter(file.content).value.content;
      && e.Str? && '\n' !in e.s && |e.s| <= |body| && e.s == body[..|e.s|]
      && (|e.s| < |body| ==> body[|e.s|] == '\n')
  {
    ExcerptIsFirstLine(matter(file.content).value.content);
  }

  /** The extracted excerpt wins when truthy; otherwise a truthy metadata
      excerpt is used. */
  lemma ExcerptPrecedence(matter: string -> Completion<Matter>, file: File)
    requires FileToFrontmatter(matter, file).Normal?
    ensures var a := matter(file.content).value; var e := FileToFrontmatter(matter, file).value.excerpt;
      && (!Falsy(a.excerpt) ==> e == a.excerpt)
      && (Falsy(a.excerpt) && !Falsy(Get(a.data, "excerpt")) ==> e == Get(a.data, "excerpt"))
  {
  }
}
