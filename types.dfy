/**
 * The parsed diff and the review comment, as the session sees them
 * (src/git/types.ts). All of them are immutable values.
 */
module Types {
  import opened Util

  datatype LineType = Add | Delete | Context

  /**
   * One line of a hunk. `lineNumber` is the new-file number for added and
   * context lines and the old-file number for deleted lines.
   */
  datatype DiffLine = DiffLine(kind: LineType, lineNumber: int, content: string)

  datatype Hunk = Hunk(startLine: int, endLine: int, lines: seq<DiffLine>, header: string)

  datatype FileDiff = FileDiff(path: string, hunks: seq<Hunk>, isBinary: bool, isNew: bool, isDeleted: bool)

  /**
   * A review comment. `lineNumber` is `None` for a hunk-level comment. The
   * optional `isDeletedFile` of the source is a plain flag here: every reader
   * only tests its truthiness, for which absent and `false` agree.
   */
  datatype Comment = Comment(
    filePath: string,
    hunkIndex: int,
    lineNumber: Option<int>,
    text: string,
    diffSnippet: string,
    startLine: int,
    endLine: int,
    isDeletedFile: bool)

  /** JavaScript truthiness of `comment.lineNumber`: absent and 0 are both falsy. */
  predicate HasLine(c: Comment)
  {
    c.lineNumber.Some? && c.lineNumber.value != 0
  }

  /** The one-character marker a diff line is shown with. */
  function Marker(kind: LineType): char
  {
    match kind
    case Add => '+'
    case Delete => '-'
    case Context => ' '
  }
}
