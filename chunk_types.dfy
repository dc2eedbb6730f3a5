/** The records of src/chunker/types.py. */
module ChunkTypes {
  import opened Optional

  /**
   * `MarkdownSection`: a heading (its title, the link target when the heading
   * is a link, its level), the content that follows it, and the sections
   * nested below it. A section is built with no sub-sections.
   */
  datatype Section = Section(
    title: string,
    titleUrl: Option<string>,
    content: string,
    level: int,
    subSections: seq<Section>)

  /**
   * `Chunk`: the text to index (with a synthesised heading line), the same
   * text without that line, the most specific title, and the title of the
   * top-level section it came from.
   */
  datatype Chunk = Chunk(
    content: string,
    originalContent: string,
    originalTitle: string,
    rootTitle: string)
}
