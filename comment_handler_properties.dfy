/** Properties of the header comment codec: the reading rules of
    `extractHeader`, the shape of `toComment`, and the round trip between
    them. */
module CommentHandlerProperties {
  import opened Wrappers
  import opened Text
  import opened CommentHandler

  /** Reading a line that is followed by a system line separator gives the
      line and leaves exactly what follows the separator. */
  lemma ReadLineOf(line: string, sep: string, more: string)
    requires NoLineBreaks(line) && IsSystemSeparator(sep)
    ensures ReadLine(line + sep + more) == Some((line, more))
  {
    var s := line + sep + more;
    assert s[|line|] == sep[0];
    assert LineEnd(s) == |line| by {
      forall j | 0 <= j < |line| ensures !IsLineBreak(s[j]) {
        assert s[j] == line[j];
      }
    }
    assert s[..|line|] == line;
    if sep == "\r\n" {
      assert s[|line| + 1] == '\n';
    }
    assert s[|line| + |sep|..] == more;
  }

  /** A lone "\r" also ends a line: what follows it is left unread. */
  lemma ReadLineOfCr(line: string, more: string)
    requires NoLineBreaks(line)
    requires more == "" || more[0] != '\n'
    ensures ReadLine(line + "\r" + more) == Some((line, more))
  {
    var s := line + "\r" + more;
    assert s[|line|] == '\r';
    assert LineEnd(s) == |line| by {
      forall j | 0 <= j < |line| ensures !IsLineBreak(s[j]) {
        assert s[j] == line[j];
      }
    }
    assert s[..|line|] == line;
    if |line| + 1 < |s| {
      assert s[|line| + 1] == more[0];
    }
    assert s[|line| + 1..] == more;
  }

  /** A last line without a terminator is still read, and nothing is left. */
  lemma ReadLastLine(line: string)
    requires line != "" && NoLineBreaks(line)
    ensures ReadLine(line) == Some((line, ""))
  {
    assert LineEnd(line) == |line|;
    assert line[..|line|] == line;
  }

  /** Without the prefix as its first character, a document has no header. */
  lemma NoPrefixNoHeader(doc: string, blank: string -> bool)
    requires doc == "" || doc[0] != '#'
    ensures Header(doc, blank) == None
  {
  }

  /** The first line after the peeked prefix is taken verbatim, apart from at
      most one leading space; it needs no prefix of its own. */
  lemma FirstLineTakenVerbatim(line: string, sep: string, more: string, blank: string -> bool)
    requires NoLineBreaks(line) && IsSystemSeparator(sep)
    ensures Header("#" + line + sep + more, blank) == Scan(more, false, DropLeadingSpace(line), blank)
  {
    var doc := "#" + line + sep + more;
    assert BeginsWithPrefix(doc);
    assert doc[|CommentPrefix|..] == line + sep + more;
    ReadLineOf(line, sep, more);
    assert "" + DropLeadingSpace(line) == DropLeadingSpace(line);
  }

  /** A later comment line adds the text after its first prefix character,
      at most one leading space removed, joined by the canonical separator
      only when some text was accumulated already. */
  lemma CommentLineStep(acc: string, line: string, sep: string, more: string, blank: string -> bool)
    requires NoLineBreaks(line) && IsSystemSeparator(sep) && IsCommentLine(line)
    ensures Scan(line + sep + more, false, acc, blank) == Scan(more, false, AppendLine(acc, CommentText(line)), blank)
  {
    ReadLineOf(line, sep, more);
  }

  /** A blank line or the document-start marker ends the header: the result
      is the text accumulated so far, whatever follows. */
  lemma TerminatorEndsHeader(acc: string, line: string, sep: string, more: string, blank: string -> bool)
    requires NoLineBreaks(line) && IsSystemSeparator(sep) && !IsCommentLine(line)
    requires blank(line) || line == DocumentStart
    ensures Scan(line + sep + more, false, acc, blank) == (if acc != "" then Some(acc) else None)
  {
    ReadLineOf(line, sep, more);
  }

  /** A later line that is neither a comment, blank nor the marker discards
      everything: there is no header. */
  lemma OtherLineAborts(acc: string, line: string, sep: string, more: string, blank: string -> bool)
    requires NoLineBreaks(line) && IsSystemSeparator(sep) && !IsCommentLine(line)
    requires !blank(line) && line != DocumentStart
    ensures Scan(line + sep + more, false, acc, blank) == None
  {
    ReadLineOf(line, sep, more);
  }

  /** The end of the input ends the header like a terminator. */
  lemma EndOfInputEndsHeader(firstLine: bool, acc: string, blank: string -> bool)
    ensures Scan("", firstLine, acc, blank) == (if acc != "" then Some(acc) else None)
  {
  }

  /** An empty line is one more terminator when the blank test accepts the
      empty string (the empty line is not a comment line). */
  lemma EmptyLineEndsHeader(acc: string, sep: string, more: string, blank: string -> bool)
    requires IsSystemSeparator(sep) && blank("")
    ensures Scan(sep + more, false, acc, blank) == (if acc != "" then Some(acc) else None)
  {
    assert "" + sep + more == sep + more;
    TerminatorEndsHeader(acc, "", sep, more, blank);
  }

  // ---------------------------------------------------------------------
  // toComment and the round trip
  // ---------------------------------------------------------------------

  /** The comment line written for `s` is read back as a comment line whose
      text is `s` with at most one leading space removed. */
  lemma CommentLineRecoverable(s: string)
    ensures IsCommentLine(CommentLine(s))
    ensures '#' in CommentLine(s)
    ensures CommentText(CommentLine(s)) == DropLeadingSpace(s)
  {
    var c := CommentLine(s);
    assert c[0] == '#';
    TrimKeepsFirst(c);
    assert IndexOf(c, '#') == 0;
    if |s| > 0 && s[0] == ' ' {
      assert c[1..] == s;
    } else {
      assert c[1..] == " " + s;
      assert (" " + s)[1..] == s;
    }
  }

  /** `toComment` of a non-empty list: the first comment line, then
      `toComment` of the rest. */
  lemma ToCommentCons(lines: seq<string>)
    requires lines != []
    ensures ToComment(lines) == [CommentLine(lines[0])] + ToComment(lines[1..])
  {
    var a := ToComment(lines);
    var b := [CommentLine(lines[0])] + ToComment(lines[1..]);
    assert |a| == |b|;
    forall i | 0 <= i < |a| ensures a[i] == b[i] {
      if 0 < i < |lines| {
        assert b[i] == ToComment(lines[1..])[i - 1];
      }
    }
  }

  /** The header lines with at most one leading space removed from each:
      what reading back the written comment lines recovers. */
  function Stripped(lines: seq<string>): (r: seq<string>)
    ensures |r| == |lines|
    ensures forall i :: 0 <= i < |lines| ==> r[i] == DropLeadingSpace(lines[i])
  {
    seq(|lines|, i requires 0 <= i < |lines| => DropLeadingSpace(lines[i]))
  }

  /** Lines joined with the canonical separator between neighbours. */
  function JoinLines(lines: seq<string>): string {
    if |lines| == 0 then ""
    else if |lines| == 1 then lines[0]
    else lines[0] + CanonicalSeparator + JoinLines(lines[1..])
  }

  predicate AllWithoutBreaks(lines: seq<string>) {
    forall i :: 0 <= i < |lines| ==> NoLineBreaks(lines[i])
  }

  /** A comment line written for `l` has no line breaks when `l` has none. */
  lemma CommentLineWithoutBreaks(l: string)
    requires NoLineBreaks(l)
    ensures NoLineBreaks(CommentLine(l))
  {
    var c := CommentLine(l);
    forall j | 0 <= j < |c| ensures !IsLineBreak(c[j]) {
      if l != "" && l[0] == ' ' {
        if j > 0 { assert c[j] == l[j - 1]; }
      } else {
        if j > 1 { assert c[j] == l[j - 2]; }
      }
    }
  }

  lemma RestWithoutBreaks(lines: seq<string>)
    requires lines != [] && AllWithoutBreaks(lines)
    ensures NoLineBreaks(lines[0]) && AllWithoutBreaks(lines[1..])
  {
    forall i | 0 <= i < |lines[1..]| ensures NoLineBreaks(lines[1..][i]) {
      assert lines[1..][i] == lines[i + 1];
    }
  }

  /** Output lines rendered one after another: the first, its separator,
      then the rest. */
  lemma RenderCons(c: string, tail: seq<string>, sep: string, body: string)
    ensures Render([c] + tail, sep) + body == c + sep + (Render(tail, sep) + body)
  {
    assert ([c] + tail)[1..] == tail;
  }

  /** Reading a written comment line after the first line. */
  lemma WrittenLineStep(acc: string, l: string, tail: seq<string>, sep: string, body: string, blank: string -> bool)
    requires acc != "" && NoLineBreaks(l) && IsSystemSeparator(sep)
    ensures Scan(Render([CommentLine(l)] + tail, sep) + body, false, acc, blank) ==
      Scan(Render(tail, sep) + body, false, acc + CanonicalSeparator + DropLeadingSpace(l), blank)
  {
    var c := CommentLine(l);
    RenderCons(c, tail, sep, body);
    CommentLineWithoutBreaks(l);
    CommentLineRecoverable(l);
    CommentLineStep(acc, c, sep, Render(tail, sep) + body, blank);
    assert CommentText(c) == DropLeadingSpace(l);
    assert AppendLine(acc, DropLeadingSpace(l)) == acc + CanonicalSeparator + DropLeadingSpace(l);
  }

  /** Reading the written marker line after the first line ends the header. */
  lemma WrittenMarkerEnds(acc: string, sep: string, body: string, blank: string -> bool)
    requires acc != "" && IsSystemSeparator(sep)
    ensures Scan(Render(ToComment([]), sep) + body, false, acc, blank) == Some(acc)
  {
    assert ToComment([]) == [DocumentStart] + [];
    RenderCons(DocumentStart, [], sep, body);
    assert Render(ToComment([]), sep) + body == DocumentStart + sep + body;
    TrimKeepsFirst(DocumentStart);
    TerminatorEndsHeader(acc, DocumentStart, sep, body, blank);
  }

  /** The written comment lines after the first, then the marker, read with
      non-empty text accumulated: the text of each line is appended in
      order. */
  lemma {:induction false} ScanCommentBlock(acc: string, lines: seq<string>, sep: string, body: string, blank: string -> bool)
    requires acc != "" && AllWithoutBreaks(lines) && IsSystemSeparator(sep)
    decreases |lines|
    ensures Scan(Render(ToComment(lines), sep) + body, false, acc, blank) ==
      Some(if lines == [] then acc else acc + CanonicalSeparator + JoinLines(Stripped(lines)))
  {
    if lines == [] {
      WrittenMarkerEnds(acc, sep, body, blank);
    } else {
      var x := DropLeadingSpace(lines[0]);
      var rest := lines[1..];
      ToCommentCons(lines);
      RestWithoutBreaks(lines);
      WrittenLineStep(acc, lines[0], ToComment(rest), sep, body, blank);
      ScanCommentBlock(acc + CanonicalSeparator + x, rest, sep, body, blank);
      StrippedCons(lines);
      JoinCons(x, Stripped(rest));
      if rest != [] {
        Regroup(acc, CanonicalSeparator, x, JoinLines(Stripped(rest)));
      }
    }
  }

  lemma StrippedCons(lines: seq<string>)
    requires lines != []
    ensures Stripped(lines) == [DropLeadingSpace(lines[0])] + Stripped(lines[1..])
  {
    hide DropLeadingSpace;
    var a := Stripped(lines);
    var rest := Stripped(lines[1..]);
    assert a[1..] == rest by {
      forall i | 0 <= i < |rest| ensures a[1..][i] == rest[i] {
        assert lines[1..][i] == lines[i + 1];
      }
    }
    assert a == [a[0]] + a[1..];
  }

  /** Regrouping a concatenation, kept out of the larger proof that needs it. */
  lemma Regroup(a: string, sep: string, x: string, j: string)
    ensures a + sep + x + sep + j == a + sep + (x + sep + j)
  {
  }

  lemma JoinCons(x: string, rest: seq<string>)
    ensures JoinLines([x] + rest) == if rest == [] then x else x + CanonicalSeparator + JoinLines(rest)
  {
    assert ([x] + rest)[1..] == rest;
  }

  /** Reading the first written comment line: the peek takes its prefix and
      the rest of the line, at most one leading space removed, starts the
      header. */
  lemma WrittenFirstLine(l: string, tail: seq<string>, sep: string, body: string, blank: string -> bool)
    requires NoLineBreaks(l) && IsSystemSeparator(sep)
    ensures Header(Render([CommentLine(l)] + tail, sep) + body, blank) ==
      Scan(Render(tail, sep) + body, false, DropLeadingSpace(l), blank)
  {
    var c := CommentLine(l);
    var first := c[1..];
    RenderCons(c, tail, sep, body);
    assert c == "#" + first;
    assert DropLeadingSpace(first) == DropLeadingSpace(l) by {
      if !(l != "" && l[0] == ' ') {
        assert first == " " + l;
        assert (" " + l)[1..] == l;
      }
    }
    CommentLineWithoutBreaks(l);
    assert NoLineBreaks(first) by {
      forall j | 0 <= j < |first| ensures !IsLineBreak(first[j]) {
        assert first[j] == c[j + 1];
      }
    }
    FirstLineTakenVerbatim(first, sep, Render(tail, sep) + body, blank);
  }

  /** Header round trip: a header written by `toComment`, followed by any
      document body, is read back as its lines joined by the canonical
      separator, each with at most one leading space removed, provided the
      lines have no line breaks and the first one keeps some text. */
  lemma HeaderRoundTrip(lines: seq<string>, sep: string, body: string, blank: string -> bool)
    requires lines != [] && AllWithoutBreaks(lines) && IsSystemSeparator(sep)
    requires DropLeadingSpace(lines[0]) != ""
    ensures Header(Render(ToComment(lines), sep) + body, blank) == Some(JoinLines(Stripped(lines)))
  {
    var x := DropLeadingSpace(lines[0]);
    var rest := lines[1..];
    ToCommentCons(lines);
    RestWithoutBreaks(lines);
    WrittenFirstLine(lines[0], ToComment(rest), sep, body, blank);
    ScanCommentBlock(x, rest, sep, body, blank);
    StrippedCons(lines);
    JoinCons(x, Stripped(rest));
  }

  /** The round trip for non-empty header lines that do not start with a
      space: the header read back is exactly the lines joined by "\n". */
  lemma PlainHeaderRoundTrip(lines: seq<string>, sep: string, body: string, blank: string -> bool)
    requires lines != [] && AllWithoutBreaks(lines) && IsSystemSeparator(sep)
    requires forall i :: 0 <= i < |lines| ==> lines[i] != "" && lines[i][0] != ' '
    ensures Header(Render(ToComment(lines), sep) + body, blank) == Some(JoinLines(lines))
  {
    HeaderRoundTrip(lines, sep, body, blank);
    assert Stripped(lines) == lines;
  }

  /** An empty header list is written as the marker alone, which does not
      begin with the prefix: nothing is read back. */
  lemma EmptyHeaderGivesNone(sep: string, body: string, blank: string -> bool)
    ensures Header(Render(ToComment([]), sep) + body, blank) == None
  {
    assert ToComment([]) == [DocumentStart];
    assert (Render(ToComment([]), sep) + body)[0] == '-';
  }

}
