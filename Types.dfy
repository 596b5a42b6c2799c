/** The two enumerations of types.ts:1-9. */
module Types {

  /** How the input and output panes are arranged. */
  datatype LayoutMode = SideBySide | TopBottom

  /** Markdown editing with a live preview, or rich text converted to Markdown. */
  datatype AppMode = MarkdownEditor | TextConverter
}
