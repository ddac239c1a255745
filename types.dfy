/** The domain entities of src/types.ts. Front-matter fields come from a YAML
    block and are dynamic values; only `tags` is always a list of strings. */
module Types {
  import opened Js

  /** A source or output file: its path and its text. */
  datatype File = File(filepath: string, content: string)

  /** Post metadata. */
  datatype Frontmatter = Frontmatter(
    category: Value,
    excerpt: Value,
    published: Value,
    slug: Value,
    subtitle: Value,
    tags: seq<string>,
    title: Value)

  /** One article: its metadata, its rendered HTML, where it was read from and
      where it will be written. */
  datatype Post = Post(frontmatter: Frontmatter, content: string, sourcePath: string, destinationPath: string)

  /** A standalone page rendered from a template. */
  datatype Page = Page(title: string, templatePath: string, destinationPath: string)
}
