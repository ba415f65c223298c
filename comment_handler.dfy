/** The YAML comment handler: reading a header comment block from the start
    of a document, and formatting header lines as comment lines. */
module CommentHandler {
  import opened Wrappers
  import opened Text

  const CommentPrefix := "#"

  /** The document-start marker that ends a written header. */
  const DocumentStart := "---"

  // ---------------------------------------------------------------------
  // The reader
  // ---------------------------------------------------------------------

  /** The position of the first line break in `s`, or `|s|` if it has none. */
  function LineEnd(s: string): (i: nat)
    ensures i <= |s|
    ensures i < |s| ==> IsLineBreak(s[i])
    ensures forall j :: 0 <= j < i ==> !IsLineBreak(s[j])
  {
    if |s| == 0 || IsLineBreak(s[0]) then 0 else LineEnd(s[1..]) + 1
  }

  /** `BufferedReader.readLine()` on the unread input `s`: nothing at the end of
      the input; otherwise the text up to the first "\n", "\r" or "\r\n"
      (not included) and the input after that terminator. */
  function ReadLine(s: string): (r: Option<(string, string)>)
    ensures r.None? <==> s == ""
    ensures r.Some? ==> NoLineBreaks(r.value.0) && StartsWith(s, r.value.0)
    ensures r.Some? ==> |r.value.0| == |s| || IsLineBreak(s[|r.value.0|])
    ensures r.Some? ==> |r.value.1| < |s|
  {
    if |s| == 0 then None
    else
      var i := LineEnd(s);
      var next :=
        if i == |s| then |s|
        else if s[i] == '\r' && i + 1 < |s| && s[i + 1] == '\n' then i + 2
        else i + 1;
      Some((s[..i], s[next..]))
  }

  /** `beginsWithPrefix`: the first `|CommentPrefix|` characters read are the
      prefix; a shorter input does not begin with it. */
  function BeginsWithPrefix(doc: string): (b: bool)
    ensures b <==> doc != "" && doc[0] == '#'
  {
    |doc| >= |CommentPrefix| && doc[..|CommentPrefix|] == CommentPrefix
  }

  // ---------------------------------------------------------------------
  // Header extraction
  // ---------------------------------------------------------------------

  /** A line that, trimmed, starts with the comment prefix. */
  predicate IsCommentLine(line: string) {
    StartsWith(JavaTrim(line), CommentPrefix)
  }

  /** A comment line contains the prefix character. */
  lemma CommentLineHasPrefix(line: string)
    requires IsCommentLine(line)
    ensures '#' in line
  {
    var trimmed := JavaTrim(line);
    var start := TrimStart(line);
    assert trimmed[0] == start[0];
    assert start[0] == line[|line| - |start|];
  }

  /** The text a later comment line contributes: everything after its first
      prefix character, with at most one leading space removed. */
  function CommentText(line: string): string
    requires IsCommentLine(line)
  {
    CommentLineHasPrefix(line);
    DropLeadingSpace(line[IndexOf(line, '#') + 1..])
  }

  /** Adds a header line, with the canonical separator only when the text so
      far is not empty. */
  function AppendLine(acc: string, text: string): string {
    (if |acc| > 0 then acc + CanonicalSeparator else acc) + text
  }

  /** The accumulated header, or null when nothing was accumulated. */
  function NonEmpty(acc: string): Option<string> {
    if |acc| > 0 then Some(acc) else None
  }

  /** The header the reading loop of `extractHeader` returns when it still
      has `rest` to read, is or is not at the first line, and has built
      `acc`. `blank` is the framework's blank-line test. */
  function Scan(rest: string, firstLine: bool, acc: string, blank: string -> bool): Option<string>
    decreases |rest|
  {
    match ReadLine(rest)
    case None => NonEmpty(acc)
    case Some((line, next)) =>
      if firstLine then Scan(next, false, acc + DropLeadingSpace(line), blank)
      else if IsCommentLine(line) then Scan(next, false, AppendLine(acc, CommentText(line)), blank)
      else if blank(line) || line == DocumentStart then NonEmpty(acc)
      else None
  }

  /** The header of document `doc`: the specification of `ExtractHeader`. */
  function Header(doc: string, blank: string -> bool): Option<string> {
    if BeginsWithPrefix(doc) then Scan(doc[|CommentPrefix|..], true, "", blank) else None
  }

  /** The loop never produces an empty header: it is text or nothing. */
  lemma {:induction false} ScanNeverEmpty(rest: string, firstLine: bool, acc: string, blank: string -> bool)
    decreases |rest|
    ensures Scan(rest, firstLine, acc, blank) != Some("")
  {
    match ReadLine(rest)
    case None =>
    case Some((line, next)) =>
      if firstLine {
        ScanNeverEmpty(next, false, acc + DropLeadingSpace(line), blank);
      } else if IsCommentLine(line) {
        ScanNeverEmpty(next, false, AppendLine(acc, CommentText(line)), blank);
      }
  }

  /** `extractHeader`: peeks at the first character, then reads line by line,
      building the header until a terminator or the end of the input, or
      gives up on a line that is neither. */
  method ExtractHeader(doc: string, blank: string -> bool) returns (header: Option<string>)
    ensures header == Header(doc, blank)
    ensures doc == "" || doc[0] != '#' ==> header == None
    ensures header != Some("")
  {
    if !BeginsWithPrefix(doc) {
      return None;
    }
    ScanNeverEmpty(doc[|CommentPrefix|..], true, "", blank);
    var rest := doc[|CommentPrefix|..];
    var firstLine := true;
    var build := "";
    while true
      invariant Scan(rest, firstLine, build, blank) == Header(doc, blank)
      decreases |rest|
    {
      var next := ReadLine(rest);
      if next.None? {
        break;
      }
      var line := next.value.0;
      if firstLine {
        build := build + DropLeadingSpace(line);
        firstLine := false;
      } else if IsCommentLine(line) {
        CommentLineHasPrefix(line);
        var text := DropLeadingSpace(line[IndexOf(line, '#') + 1..]);
        if |build| > 0 {
          build := build + CanonicalSeparator;
        }
        build := build + text;
      } else if blank(line) || line == DocumentStart {
        break;
      } else {
        return None;
      }
      rest := next.value.1;
    }
    header := if |build| > 0 then Some(build) else None;
  }

  // ---------------------------------------------------------------------
  // Header and footer emission
  // ---------------------------------------------------------------------

  /** One header line as a comment line: "#" before a line that starts with a
      space, "# " before any other. */
  function CommentLine(s: string): (c: string)
    ensures StartsWith(c, CommentPrefix)
  {
    if |s| > 0 && s[0] == ' ' then CommentPrefix + s else CommentPrefix + " " + s
  }

  /** `toComment`: every line as a comment line, then the document-start
      marker. */
  function ToComment(lines: seq<string>): (out: seq<string>)
    ensures |out| == |lines| + 1
    ensures out[|lines|] == DocumentStart
    ensures forall i :: 0 <= i < |lines| ==> out[i] == CommentLine(lines[i])
  {
    seq(|lines|, i requires 0 <= i < |lines| => CommentLine(lines[i])) + [DocumentStart]
  }

  /** The text of output lines written one after another, each followed by
      the system line separator `sep`. */
  function Render(out: seq<string>, sep: string): string {
    if |out| == 0 then "" else out[0] + sep + Render(out[1..], sep)
  }
}
