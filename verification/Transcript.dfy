/** Reading the text of the history and the screen (getTranscriptText). */
module Transcript {
  import opened TerminalRows
  import opened TerminalRing
  import opened FastResize

  const NEWLINE: int := 10

  /** All code points of a row. */
  function FullText(cells: seq<Cell>): seq<int> {
    if cells == [] then [] else FullText(cells[..|cells| - 1]) + cells[|cells| - 1].text
  }

  function TrimRight(s: seq<int>): seq<int> {
    if s != [] && s[|s| - 1] == SPACE then TrimRight(s[..|s| - 1]) else s
  }

  /** The trailing spaces of a row belong to the text only if the line goes on in the next row. */
  function LineContent(line: Line): seq<int> {
    if line.wrap then FullText(line.cells) else TrimRight(FullText(line.cells))
  }

  /** The first n rows; a row that does not wrap ends a line, except at the very end. */
  function Joined(lines: seq<Line>, n: nat): seq<int>
    requires n <= |lines|
    decreases n
  {
    if n == 0 then []
    else Joined(lines, n - 1) + LineContent(lines[n - 1]) + if !lines[n - 1].wrap && n < |lines| then [NEWLINE] else []
  }

  /** String.trim. */
  function TrimStart(s: seq<int>): seq<int> {
    if s != [] && s[0] <= SPACE then TrimStart(s[1..]) else s
  }

  function TrimEnd(s: seq<int>): seq<int> {
    if s != [] && s[|s| - 1] <= SPACE then TrimEnd(s[..|s| - 1]) else s
  }

  function Trim(s: seq<int>): seq<int> {
    TrimEnd(TrimStart(s))
  }

  function TranscriptText(r: Ring): seq<int>
    requires Valid(r)
  {
    Trim(Joined(AllLines(r), |AllLines(r)|))
  }
}
