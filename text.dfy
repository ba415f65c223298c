/** The string operations of the Java standard library that the loader and the
    comment handler rely on, written out as left-to-right scans. */
module Text {

  /** The framework's line separator for all multi-line text it holds:
      comments and the header. */
  const CanonicalSeparator := "\n"

  predicate IsLineBreak(c: char) {
    c == '\n' || c == '\r'
  }

  /** No '\r' and no '\n' anywhere in `s`. */
  predicate NoLineBreaks(s: string) {
    forall i :: 0 <= i < |s| ==> !IsLineBreak(s[i])
  }

  /** No '\r' anywhere in `s`. */
  predicate NoCarriageReturn(s: string) {
    forall i :: 0 <= i < |s| ==> s[i] != '\r'
  }

  /** The system line separators considered: "\n" and "\r\n". */
  predicate IsSystemSeparator(sep: string) {
    sep == "\n" || sep == "\r\n"
  }

  predicate StartsWith(s: string, prefix: string) {
    |prefix| <= |s| && s[..|prefix|] == prefix
  }

  /** `s.replace("\r\n", CanonicalSeparator)`: every non-overlapping "\r\n",
      found left to right, becomes the canonical separator; everything else
      is copied. */
  function NormalizeCrlf(s: string): (r: string)
    ensures |r| <= |s|
    ensures s != "" ==> r != ""
  {
    if |s| == 0 then ""
    else if |s| >= 2 && s[0] == '\r' && s[1] == '\n' then CanonicalSeparator + NormalizeCrlf(s[2..])
    else [s[0]] + NormalizeCrlf(s[1..])
  }

  /** `s.replaceAll("\\r?\\n", sep)`: scanning left to right, a "\r" directly
      followed by "\n" and a lone "\n" each become `sep`; a lone "\r" stays. */
  function ReplaceLineBreaks(s: string, sep: string): (r: string)
    ensures s != "" && sep != "" ==> r != ""
  {
    if |s| == 0 then ""
    else if |s| >= 2 && s[0] == '\r' && s[1] == '\n' then sep + ReplaceLineBreaks(s[2..], sep)
    else if s[0] == '\n' then sep + ReplaceLineBreaks(s[1..], sep)
    else [s[0]] + ReplaceLineBreaks(s[1..], sep)
  }

  /** A string without line breaks passes through the rewrite unchanged. */
  lemma {:induction false} ReplaceWithoutBreaks(s: string, sep: string)
    requires NoLineBreaks(s)
    ensures ReplaceLineBreaks(s, sep) == s
  {
    if |s| > 0 {
      assert NoLineBreaks(s[1..]) by {
        forall i | 0 <= i < |s[1..]| ensures !IsLineBreak(s[1..][i]) {
          assert s[1..][i] == s[i + 1];
        }
      }
      ReplaceWithoutBreaks(s[1..], sep);
      assert s == [s[0]] + s[1..];
    }
  }

  /** A string without '\r' passes through the normalisation unchanged. */
  lemma {:induction false} NormalizeWithoutCr(s: string)
    requires NoCarriageReturn(s)
    ensures NormalizeCrlf(s) == s
  {
    if |s| > 0 {
      assert NoCarriageReturn(s[1..]) by {
        forall i | 0 <= i < |s[1..]| ensures s[1..][i] != '\r' {
          assert s[1..][i] == s[i + 1];
        }
      }
      NormalizeWithoutCr(s[1..]);
      assert s == [s[0]] + s[1..];
    }
  }

  /** Writing a comment with either system separator and normalising it on
      the way back in gives the comment back, provided it has no '\r'. */
  lemma {:induction false} NormalizeUndoesReplace(s: string, sep: string)
    requires NoCarriageReturn(s)
    requires IsSystemSeparator(sep)
    ensures NormalizeCrlf(ReplaceLineBreaks(s, sep)) == s
  {
    if |s| > 0 {
      assert NoCarriageReturn(s[1..]) by {
        forall i | 0 <= i < |s[1..]| ensures s[1..][i] != '\r' {
          assert s[1..][i] == s[i + 1];
        }
      }
      NormalizeUndoesReplace(s[1..], sep);
      var tail := ReplaceLineBreaks(s[1..], sep);
      if s[0] == '\n' {
        assert ReplaceLineBreaks(s, sep) == sep + tail;
        if sep == "\n" {
          assert (sep + tail)[0] == '\n';
          assert (sep + tail)[1..] == tail;
        } else {
          assert (sep + tail)[0] == '\r' && (sep + tail)[1] == '\n';
          assert (sep + tail)[2..] == tail;
        }
      } else {
        assert ReplaceLineBreaks(s, sep) == [s[0]] + tail;
        assert ([s[0]] + tail)[1..] == tail;
      }
      assert s == [s[0]] + s[1..];
    }
  }

  /** Java's `Character` test used by `String.trim()`: code point at most U+0020. */
  predicate IsTrimmed(c: char) {
    c <= ' '
  }

  /** `s` with its leading run of trimmed characters removed. */
  function TrimStart(s: string): (r: string)
    ensures |r| <= |s| && r == s[|s| - |r|..]
    ensures forall i :: 0 <= i < |s| - |r| ==> IsTrimmed(s[i])
    ensures r != "" ==> !IsTrimmed(r[0])
  {
    if |s| > 0 && IsTrimmed(s[0]) then TrimStart(s[1..]) else s
  }

  /** `s` with its trailing run of trimmed characters removed. */
  function TrimEnd(s: string): (r: string)
    ensures |r| <= |s| && r == s[..|r|]
    ensures forall i :: |r| <= i < |s| ==> IsTrimmed(s[i])
    ensures r != "" ==> !IsTrimmed(r[|r| - 1])
  {
    if |s| > 0 && IsTrimmed(s[|s| - 1]) then TrimEnd(s[..|s| - 1]) else s
  }

  /** Java's `String.trim()`. */
  function JavaTrim(s: string): string {
    TrimEnd(TrimStart(s))
  }

  /** A string whose first character survives trimming keeps it in front. */
  lemma TrimKeepsFirst(s: string)
    requires s != "" && !IsTrimmed(s[0])
    ensures JavaTrim(s) != "" && JavaTrim(s)[0] == s[0]
  {
    assert TrimStart(s) == s;
  }

  /** `s.indexOf(c)` for a character that occurs in `s`: its first position. */
  function IndexOf(s: string, c: char): (i: nat)
    requires c in s
    ensures i < |s| && s[i] == c
    ensures forall j :: 0 <= j < i ==> s[j] != c
  {
    if s[0] == c then 0 else IndexOf(s[1..], c) + 1
  }

  /** No string of `ks` repeats one that comes before it. */
  predicate Distinct(ks: seq<string>) {
    forall i :: 0 <= i < |ks| ==> ks[i] !in ks[..i]
  }

  /** A new string after distinct strings keeps them distinct. */
  lemma DistinctAppend(ks: seq<string>, k: string)
    requires Distinct(ks) && k !in ks
    ensures Distinct(ks + [k])
  {
    var r := ks + [k];
    forall i | 0 <= i < |r| ensures r[i] !in r[..i] {
      if i < |ks| {
        assert r[..i] == ks[..i];
      } else {
        assert r[..i] == ks;
      }
    }
  }

  /** `s` with at most one leading space removed. */
  function DropLeadingSpace(s: string): (r: string)
    ensures |s| - 1 <= |r| <= |s| && r == s[|s| - |r|..]
    ensures |r| < |s| <==> s != "" && s[0] == ' '
  {
    if |s| > 0 && s[0] == ' ' then s[1..] else s
  }
}
