/** The text-fragment primitives of src/parsers/helpers/parser.ts: marking a range for
    deletion with NUL sentinels and collapsing the marks, newline encoding as `<br>`,
    continuation-line indentation, and the trailing `^blockId` on a card's first line. */
module Fragments {
  import opened KanbanTypes
  import opened Text

  /** The sentinel that marks a character for deletion. */
  const Nul: char := '\0'

  function Nuls(n: nat): (r: string)
    ensures |r| == n && forall i :: 0 <= i < n ==> r[i] == Nul
  {
    seq(n, _ => Nul)
  }

  // ---------------------------------------------------------------------------------------
  // markRangeForDeletion

  /** Where the left-hand loop of markRangeForDeletion stops: `start` moved left over spaces. */
  function ExtendStart(s: string, start: nat): (a: nat)
    requires start <= |s|
    ensures a <= start
    decreases start
  {
    if start > 0 && s[start - 1] == ' ' then ExtendStart(s, start - 1) else start
  }

  /** The left widening covers exactly the run of spaces that ends at `start`. */
  lemma {:induction false} ExtendStartOverSpaces(s: string, start: nat)
    requires start <= |s|
    ensures forall i :: ExtendStart(s, start) <= i < start ==> s[i] == ' '
    ensures ExtendStart(s, start) == 0 || s[ExtendStart(s, start) - 1] != ' '
    decreases start
  {
    if start > 0 && s[start - 1] == ' ' {
      ExtendStartOverSpaces(s, start - 1);
    }
  }

  /** Where the right-hand loop stops as written: it tests the character one past `end`
      (`str[end + 1]`), so when a space follows it the character at `end` is swallowed
      whatever it is. */
  function ExtendEnd(s: string, end: nat): (b: nat)
    requires end <= |s|
    ensures end <= b <= |s| && (b == end || b < |s|)
    decreases |s| - end
  {
    if end + 1 < |s| && s[end + 1] == ' ' then ExtendEnd(s, end + 1) else end
  }

  /** The right widening as written covers the spaces that follow `end + 1`, not `end`. */
  lemma {:induction false} ExtendEndOverFollowingSpaces(s: string, end: nat)
    requires end <= |s|
    ensures forall i :: end < i <= ExtendEnd(s, end) ==> i < |s| && s[i] == ' '
    ensures ExtendEnd(s, end) + 1 >= |s| || s[ExtendEnd(s, end) + 1] != ' '
    decreases |s| - end
  {
    if end + 1 < |s| && s[end + 1] == ' ' {
      ExtendEndOverFollowingSpaces(s, end + 1);
      assert ExtendEnd(s, end) == ExtendEnd(s, end + 1);
      forall i | end < i <= ExtendEnd(s, end)
        ensures i < |s| && s[i] == ' '
      {
        if i > end + 1 {
          assert end + 1 < i <= ExtendEnd(s, end + 1);
        }
      }
    } else {
      assert ExtendEnd(s, end) == end;
    }
  }

  /** The result of markRangeForDeletion: the widened span is overwritten with NULs, the
      length is kept and every other character is untouched. */
  function MarkedForDeletion(s: string, start: nat, end: nat): (r: string)
    requires start <= end <= |s|
    ensures |r| == |s|
  {
    var a, b := ExtendStart(s, start), ExtendEnd(s, end);
    s[..a] + Nuls(b - a) + s[b..]
  }

  /** Marking turns into NULs the range, the spaces before it and, when a space follows the
      character at `end`, that character and the run of spaces after it; every other
      character stays as it was. */
  lemma MarkedForDeletionSpans(s: string, start: nat, end: nat)
    requires start <= end <= |s|
    ensures forall i :: 0 <= i < |s| ==>
      (MarkedForDeletion(s, start, end)[i] == Nul && ExtendStart(s, start) <= i < ExtendEnd(s, end)) ||
      (MarkedForDeletion(s, start, end)[i] == s[i] && !(ExtendStart(s, start) <= i < ExtendEnd(s, end)))
    ensures forall i :: ExtendStart(s, start) <= i < start ==> s[i] == ' '
    ensures forall i :: end < i < ExtendEnd(s, end) ==> s[i] == ' '
  {
    ExtendStartOverSpaces(s, start);
    ExtendEndOverFollowingSpaces(s, end);
    NulSpan(s, ExtendStart(s, start), ExtendEnd(s, end));
  }

  /** Overwriting `[a, b)` with NULs leaves every other character as it was. */
  lemma NulSpan(s: string, a: nat, b: nat)
    requires a <= b <= |s|
    ensures var r := s[..a] + Nuls(b - a) + s[b..];
      |r| == |s| && forall i :: 0 <= i < |s| ==>
        (r[i] == Nul && a <= i < b) || (r[i] == s[i] && !(a <= i < b))
  {
  }

  /** markRangeForDeletion, with its two widening loops. */
  method MarkRangeForDeletion(s: string, start: int, end: int) returns (r: string)
    requires 0 <= start <= end <= |s|
    ensures r == MarkedForDeletion(s, start, end)
  {
    var len := |s|;
    var st := start;
    while st > 0 && s[st - 1] == ' '
      invariant 0 <= st <= start
      invariant ExtendStart(s, st) == ExtendStart(s, start)
    {
      st := st - 1;
    }
    var en := end;
    while en < len - 1 && s[en + 1] == ' '
      invariant end <= en <= len
      invariant ExtendEnd(s, en) == ExtendEnd(s, end)
    {
      en := en + 1;
    }
    r := s[..st] + Nuls(en - st) + s[en..];
  }

  /** The character at `end` is marked even when it is not a space: in "Buy #milk, eggs",
      marking the tag at [4, 9) also marks the comma at index 9. */
  lemma MarkSwallowsCharacterAfterRange()
    ensures var s := "Buy #milk, eggs";
      s[9] == ',' && MarkedForDeletion(s, 4, 9)[9] == Nul
  {
    var s := "Buy #milk, eggs";
    assert s[10] == ' ' && s[11] == 'e';
    assert ExtendEnd(s, 10) == 10;
    assert ExtendEnd(s, 9) == 10;
  }

  /** The right-hand widening as evidently intended: move `end` right over spaces. */
  function ExtendEndOverSpaces(s: string, end: nat): (b: nat)
    requires end <= |s|
    ensures end <= b <= |s|
    ensures forall i :: end <= i < b ==> s[i] == ' '
    ensures b == |s| || s[b] != ' '
    decreases |s| - end
  {
    if end < |s| && s[end] == ' ' then ExtendEndOverSpaces(s, end + 1) else end
  }

  /** Corrected marking: only the range and the spaces adjacent to it become NULs. */
  function MarkedForDeletionCorrected(s: string, start: nat, end: nat): (r: string)
    requires start <= end <= |s|
    ensures |r| == |s|
    ensures forall i :: start <= i < end ==> r[i] == Nul
    ensures forall i :: 0 <= i < |s| && r[i] != s[i] ==> r[i] == Nul
    ensures forall i :: 0 <= i < |s| && r[i] == Nul && !(start <= i < end) ==> s[i] == ' ' || s[i] == Nul
  {
    ExtendStartOverSpaces(s, start);
    var a, b := ExtendStart(s, start), ExtendEndOverSpaces(s, end);
    s[..a] + Nuls(b - a) + s[b..]
  }

  lemma CorrectedMarkKeepsCharacterAfterRange()
    ensures MarkedForDeletionCorrected("Buy #milk, eggs", 4, 9)[9] == ','
  {
    var s := "Buy #milk, eggs";
    assert s[9] == ',';
    assert ExtendEndOverSpaces(s, 9) == 9;
  }

  // ---------------------------------------------------------------------------------------
  // executeDeletion: str.replace(/ *\0+ */g, ' ').trim()

  /** The length of the run of U+0020 spaces that begins `s`. */
  function SpaceRun(s: string): (n: nat)
    ensures n <= |s| && forall i :: 0 <= i < n ==> s[i] == ' '
    ensures n < |s| ==> s[n] != ' '
  {
    if |s| > 0 && s[0] == ' ' then 1 + SpaceRun(s[1..]) else 0
  }

  /** The length of the run of NULs that begins `s`. */
  function NulRun(s: string): (n: nat)
    ensures n <= |s| && forall i :: 0 <= i < n ==> s[i] == Nul
    ensures n < |s| ==> s[n] != Nul
  {
    if |s| > 0 && s[0] == Nul then 1 + NulRun(s[1..]) else 0
  }

  /** The global replacement of ` *\0+ *` by one space, scanning left to right: a match
      starts where a (possibly empty) run of spaces reaches a NUL, and takes every NUL and
      space after it. */
  function CollapseMarks(s: string): (r: string)
    ensures Nul !in r
    decreases |s|
  {
    if |s| == 0 then []
    else
      var k := SpaceRun(s);
      if k < |s| && s[k] == Nul then
        var m := k + NulRun(s[k..]);
        var e := m + SpaceRun(s[m..]);
        " " + CollapseMarks(s[e..])
      else [s[0]] + CollapseMarks(s[1..])
  }

  lemma {:induction false} CollapseWithoutMarks(s: string)
    requires Nul !in s
    ensures CollapseMarks(s) == s
    decreases |s|
  {
    if |s| > 0 {
      var k := SpaceRun(s);
      assert !(k < |s| && s[k] == Nul);
      assert Nul !in s[1..];
      CollapseWithoutMarks(s[1..]);
      assert s == [s[0]] + s[1..];
    }
  }

  /** executeDeletion: no sentinel survives and the result is trimmed. */
  function ExecuteDeletion(s: string): (r: string)
    ensures Nul !in r
    ensures NoEdgeWs(r)
  {
    Trim(CollapseMarks(s))
  }

  lemma ExecuteDeletionIdempotent(s: string)
    ensures ExecuteDeletion(ExecuteDeletion(s)) == ExecuteDeletion(s)
  {
    var t := ExecuteDeletion(s);
    CollapseWithoutMarks(t);
    TrimOfTrimmed(t);
  }

  // ---------------------------------------------------------------------------------------
  // replaceNewLines / replaceBrs

  /** replaceNewLines: trim, then encode every line break as `<br>`. */
  function ReplaceNewLines(s: string): string {
    ReplaceLineBreaks(Trim(s), "<br>")
  }

  /** `s.replace(/<br>/g, '\n')`. */
  function ReplaceBrTags(s: string): string
    decreases |s|
  {
    if |s| == 0 then []
    else if StartsWith(s, "<br>") then "\n" + ReplaceBrTags(s[4..])
    else [s[0]] + ReplaceBrTags(s[1..])
  }

  /** replaceBrs: decode every `<br>` as a line feed, then trim. */
  function ReplaceBrs(s: string): string {
    Trim(ReplaceBrTags(s))
  }

  /** Text without `<` holds no `<br>` tag: replaceBrs only trims it. */
  lemma {:induction false} BrTagsWithoutAngle(s: string)
    requires '<' !in s
    ensures ReplaceBrTags(s) == s
    decreases |s|
  {
    if |s| > 0 {
      assert s[0] != '<' && "<br>"[0] == '<';
      assert '<' !in s[1..];
      BrTagsWithoutAngle(s[1..]);
      assert s == [s[0]] + s[1..];
    }
  }

  lemma {:induction false} LineBreaksRemoveLf(s: string, rep: string)
    requires '\n' !in rep
    ensures '\n' !in ReplaceLineBreaks(s, rep)
    decreases |s|
  {
    if |s| >= 2 && s[0] == '\r' && s[1] == '\n' {
      LineBreaksRemoveLf(s[2..], rep);
    } else if |s| > 0 {
      LineBreaksRemoveLf(s[1..], rep);
    }
  }

  /** replaceNewLines leaves no line feed behind. */
  lemma ReplaceNewLinesHasNoLf(s: string)
    ensures '\n' !in ReplaceNewLines(s)
  {
    LineBreaksRemoveLf(Trim(s), "<br>");
  }

  /** If the encoded text begins with `q`, and `q` never holds the first character of the
      replacement, the text itself began with `q`. */
  lemma {:induction false} LineBreaksKeepPrefix(u: string, rep: string, q: string)
    requires '\r' !in u
    requires |rep| > 0 && forall k :: 0 <= k < |q| ==> q[k] != rep[0]
    ensures StartsWith(ReplaceLineBreaks(u, rep), q) ==> StartsWith(u, q)
    decreases |q|
  {
    if |q| > 0 && StartsWith(ReplaceLineBreaks(u, rep), q) {
      assert |u| > 0;
      if u[0] == '\n' {
        assert ReplaceLineBreaks(u, rep)[0] == rep[0];
        assert false;
      }
      var rest := ReplaceLineBreaks(u[1..], rep);
      assert ReplaceLineBreaks(u, rep) == [u[0]] + rest;
      assert StartsWith(rest, q[1..]);
      assert '\r' !in u[1..];
      LineBreaksKeepPrefix(u[1..], rep, q[1..]);
      assert u[..|q|] == [u[0]] + u[1..][..|q| - 1];
    }
  }

  lemma {:induction false} BrTagsUndoLineBreaks(t: string)
    requires '\r' !in t && !Contains(t, "<br>")
    ensures ReplaceBrTags(ReplaceLineBreaks(t, "<br>")) == t
    decreases |t|
  {
    if |t| > 0 {
      var rest := t[1..];
      assert '\r' !in rest;
      if Contains(rest, "<br>") {
        assert t[1..|t|] == rest;
        ContainsOfSlice(t, 1, |t|, "<br>");
      }
      BrTagsUndoLineBreaks(rest);
      var enc := ReplaceLineBreaks(rest, "<br>");
      if t[0] == '\n' {
        assert ReplaceLineBreaks(t, "<br>") == "<br>" + enc;
        assert ("<br>" + enc)[4..] == enc;
      } else {
        assert ReplaceLineBreaks(t, "<br>") == [t[0]] + enc;
        assert "<br>"[0] == '<' && "br>"[0] == 'b' && "br>"[1] == 'r' && "br>"[2] == '>';
        LineBreaksKeepPrefix(rest, "<br>", "br>");
        assert !OccursAt(t, "<br>", 0);
        assert |enc| >= 3 ==> ([t[0]] + enc)[1..4] == enc[..3];
        assert |t| >= 4 ==> t[..4] == [t[0]] + rest[..3];
        if StartsWith([t[0]] + enc, "<br>") {
          assert false;
        }
        assert ([t[0]] + enc)[1..] == enc;
      }
      assert t == [t[0]] + rest;
    }
  }

  /** Decoding undoes encoding for text without a literal `<br>` or a carriage return. */
  lemma NewLinesRoundTrip(s: string)
    requires !Contains(s, "<br>") && '\r' !in s
    ensures ReplaceBrs(ReplaceNewLines(s)) == Trim(s)
  {
    var t := Trim(s);
    var a := LeadWs(s);
    assert t == s[a..a + |t|];
    if Contains(t, "<br>") {
      ContainsOfSlice(s, a, a + |t|, "<br>");
    }
    assert forall k :: 0 <= k < |t| ==> t[k] == s[a + k];
    assert '\r' !in t;
    BrTagsUndoLineBreaks(t);
    TrimOfTrimmed(t);
  }

  // ---------------------------------------------------------------------------------------
  // indentNewLines / dedentNewLines

  const Indent: string := "\n    "

  /** indentNewLines: trim, then put four spaces after every line break. */
  function IndentNewLines(s: string): string {
    ReplaceLineBreaks(Trim(s), Indent)
  }

  /** `s.replace(/(?:\r\n|\n)(?: {4}|\t)/g, '\n')`. */
  function DedentBreaks(s: string): string
    decreases |s|
  {
    if |s| == 0 then []
    else if StartsWith(s, "\r\n    ") then "\n" + DedentBreaks(s[6..])
    else if StartsWith(s, "\r\n\t") then "\n" + DedentBreaks(s[3..])
    else if StartsWith(s, "\n    ") then "\n" + DedentBreaks(s[5..])
    else if StartsWith(s, "\n\t") then "\n" + DedentBreaks(s[2..])
    else [s[0]] + DedentBreaks(s[1..])
  }

  /** dedentNewLines: trim, then drop the four-space (or tab) prefix after each break. */
  function DedentNewLines(s: string): string {
    DedentBreaks(Trim(s))
  }

  /** Every line feed is followed by four spaces. */
  ghost predicate LfIndented(r: string) {
    forall i :: 0 <= i < |r| && r[i] == '\n' ==> i + 5 <= |r| && r[i + 1..i + 5] == "    "
  }

  lemma LfIndentedPrepend(pre: string, t: string)
    requires pre == Indent || (|pre| == 1 && pre[0] != '\n')
    requires LfIndented(t)
    ensures LfIndented(pre + t)
  {
    var r := pre + t;
    forall i | 0 <= i < |r| && r[i] == '\n'
      ensures i + 5 <= |r| && r[i + 1..i + 5] == "    "
    {
      if i >= |pre| {
        assert t[i - |pre|] == '\n';
        assert r[i + 1..i + 5] == t[i - |pre| + 1..i - |pre| + 5];
      } else {
        assert pre == Indent && i == 0;
        assert r[1..5] == pre[1..5];
      }
    }
  }

  lemma {:induction false} LineBreaksIndented(u: string)
    ensures LfIndented(ReplaceLineBreaks(u, Indent))
    decreases |u|
  {
    if |u| >= 2 && u[0] == '\r' && u[1] == '\n' {
      LineBreaksIndented(u[2..]);
      LfIndentedPrepend(Indent, ReplaceLineBreaks(u[2..], Indent));
    } else if |u| > 0 && u[0] == '\n' {
      LineBreaksIndented(u[1..]);
      LfIndentedPrepend(Indent, ReplaceLineBreaks(u[1..], Indent));
    } else if |u| > 0 {
      LineBreaksIndented(u[1..]);
      LfIndentedPrepend([u[0]], ReplaceLineBreaks(u[1..], Indent));
    }
  }

  /** indentNewLines puts four spaces after every line feed it leaves. */
  lemma IndentNewLinesIndents(s: string)
    ensures LfIndented(IndentNewLines(s))
  {
    LineBreaksIndented(Trim(s));
  }

  lemma {:induction false} DedentUndoesIndent(t: string)
    requires '\r' !in t
    ensures DedentBreaks(ReplaceLineBreaks(t, Indent)) == t
    decreases |t|
  {
    if |t| > 0 {
      var enc := ReplaceLineBreaks(t[1..], Indent);
      assert '\r' !in t[1..];
      DedentUndoesIndent(t[1..]);
      assert t[0] != '\r' by { assert t[0] in t; }
      if t[0] == '\n' {
        DedentIndentedBreak(enc);
      } else {
        DedentPlainChar(t[0], enc);
      }
      assert t == [t[0]] + t[1..];
    }
  }

  /** An indented line break dedents to a bare line feed. */
  lemma DedentIndentedBreak(enc: string)
    ensures DedentBreaks(Indent + enc) == "\n" + DedentBreaks(enc)
  {
    var x := Indent + enc;
    assert x[0] == '\n' && x[..5] == "\n    ";
    assert !StartsWith(x, "\r\n    ") && !StartsWith(x, "\r\n\t");
    assert x[5..] == enc;
  }

  /** A character other than a line break dedents to itself. */
  lemma DedentPlainChar(c: char, enc: string)
    requires c != '\r' && c != '\n'
    ensures DedentBreaks([c] + enc) == [c] + DedentBreaks(enc)
  {
    var x := [c] + enc;
    assert x[0] == c;
    assert !StartsWith(x, "\r\n    ") && !StartsWith(x, "\r\n\t");
    assert !StartsWith(x, "\n    ") && !StartsWith(x, "\n\t");
    assert x[1..] == enc;
  }

  /** Encoding keeps the first and last character when they are not line breaks. */
  lemma {:induction false} LineBreaksKeepEnds(t: string, rep: string)
    requires '\r' !in t && |t| > 0 && t[0] != '\n' && t[|t| - 1] != '\n'
    ensures var r := ReplaceLineBreaks(t, rep); |r| > 0 && r[0] == t[0] && r[|r| - 1] == t[|t| - 1]
    decreases |t|
  {
    var rest := ReplaceLineBreaks(t[1..], rep);
    assert ReplaceLineBreaks(t, rep) == [t[0]] + rest;
    if |t| > 1 {
      assert '\r' !in t[1..];
      if t[1] == '\n' {
        assert t[1..][|t| - 2] == t[|t| - 1];
        LineBreaksTail(t[1..], rep);
      } else {
        LineBreaksKeepEnds(t[1..], rep);
      }
    }
  }

  lemma {:induction false} LineBreaksTail(t: string, rep: string)
    requires '\r' !in t && |t| > 0 && t[|t| - 1] != '\n'
    ensures var r := ReplaceLineBreaks(t, rep); |r| > 0 && r[|r| - 1] == t[|t| - 1]
    decreases |t|
  {
    if |t| > 1 {
      assert '\r' !in t[1..];
      assert t[1..][|t| - 2] == t[|t| - 1];
      LineBreaksTail(t[1..], rep);
    }
  }

  /** Removing the indentation undoes adding it, for text without carriage returns. */
  lemma IndentRoundTrip(s: string)
    requires '\r' !in s
    ensures DedentNewLines(IndentNewLines(s)) == Trim(s)
  {
    var t := Trim(s);
    var a := LeadWs(s);
    assert forall k :: 0 <= k < |t| ==> t[k] == s[a + k];
    assert '\r' !in t;
    var enc := ReplaceLineBreaks(t, Indent);
    if |t| > 0 {
      LineBreaksKeepEnds(t, Indent);
    }
    assert NoEdgeWs(enc);
    TrimOfTrimmed(enc);
    DedentUndoesIndent(t);
  }

  // ---------------------------------------------------------------------------------------
  // addBlockId / removeBlockId: split on /(?:\r\n|\n)/, rewrite line 0, join with '\n'

  /** The index of the first line feed, or `|s|`. */
  function IndexOfLf(s: string): (j: nat)
    ensures j <= |s| && '\n' !in s[..j]
    ensures j < |s| ==> s[j] == '\n'
  {
    if |s| == 0 || s[0] == '\n' then 0 else
      assert s[..1 + IndexOfLf(s[1..])] == [s[0]] + s[1..][..IndexOfLf(s[1..])];
      1 + IndexOfLf(s[1..])
  }

  /** Where the first line ends: at the first line break, a CRLF pair counting as one. */
  function FirstLineEnd(s: string): (e: nat)
    ensures e <= |s| && '\n' !in s[..e]
    ensures e < |s| ==> s[e] == '\n' || (s[e] == '\r' && e + 1 < |s| && s[e + 1] == '\n')
    ensures !(e > 0 && e < |s| && s[e - 1] == '\r' && s[e] == '\n')
  {
    var j := IndexOfLf(s);
    if j < |s| && j > 0 && s[j - 1] == '\r' then
      assert s[..j - 1] == s[..j][..j - 1];
      j - 1
    else j
  }

  /** `str.split(/(?:\r\n|\n)/g)`. */
  function SplitLines(s: string): (lines: seq<string>)
    ensures |lines| >= 1 && lines[0] == s[..FirstLineEnd(s)]
    decreases |s|
  {
    var j := IndexOfLf(s);
    if j == |s| then [s] else [s[..FirstLineEnd(s)]] + SplitLines(s[j + 1..])
  }

  /** Each line after the first, preceded by a line feed. */
  function JoinRest(lines: seq<string>): string {
    if |lines| == 0 then "" else "\n" + lines[0] + JoinRest(lines[1..])
  }

  /** `lines.join('\n')`. */
  function JoinLines(lines: seq<string>): string {
    if |lines| == 0 then "" else lines[0] + JoinRest(lines[1..])
  }

  /** Joining the split lines gives back everything after the first line, with every line
      break written as LF. */
  lemma {:induction false} SplitJoinRest(s: string)
    ensures JoinRest(SplitLines(s)[1..]) == ReplaceLineBreaks(s[FirstLineEnd(s)..], "\n")
    decreases |s|
  {
    var j := IndexOfLf(s);
    if j < |s| {
      var t := s[j + 1..];
      var lines := SplitLines(t);
      assert SplitLines(s)[1..] == lines;
      SplitJoinRest(t);
      JoinRestOfSplit(t);
      LineBreakAtFirstLineEnd(s);
    } else {
      assert s[FirstLineEnd(s)..] == [];
    }
  }

  /** The lines of `t`, each after a line feed, are `t` with its line breaks written as LF,
      given that this holds for the lines after the first. */
  lemma JoinRestOfSplit(t: string)
    requires JoinRest(SplitLines(t)[1..]) == ReplaceLineBreaks(t[FirstLineEnd(t)..], "\n")
    ensures JoinRest(SplitLines(t)) == "\n" + ReplaceLineBreaks(t, "\n")
  {
    JoinRestCons(SplitLines(t));
    FirstLineThenRest(t);
  }

  lemma JoinRestCons(lines: seq<string>)
    requires |lines| > 0
    ensures JoinRest(lines) == "\n" + (lines[0] + JoinRest(lines[1..]))
  {
    assert "\n" + lines[0] + JoinRest(lines[1..]) == "\n" + (lines[0] + JoinRest(lines[1..]));
  }

  /** The first line passes through the line-break substitution untouched. */
  lemma FirstLineThenRest(t: string)
    ensures ReplaceLineBreaks(t, "\n")
      == t[..FirstLineEnd(t)] + ReplaceLineBreaks(t[FirstLineEnd(t)..], "\n")
  {
    var e := FirstLineEnd(t);
    LineBreaksAfterPlainPrefix(t[..e], t[e..], "\n");
    assert t[..e] + t[e..] == t;
  }

  /** The text after the first line starts with the line break, written as LF. */
  lemma LineBreakAtFirstLineEnd(s: string)
    requires IndexOfLf(s) < |s|
    ensures ReplaceLineBreaks(s[FirstLineEnd(s)..], "\n")
      == "\n" + ReplaceLineBreaks(s[IndexOfLf(s) + 1..], "\n")
  {
    var j := IndexOfLf(s);
    var e := FirstLineEnd(s);
    var u := s[e..];
    if e == j {
      assert u[0] == '\n' && u[1..] == s[j + 1..];
      assert ReplaceLineBreaks(u, "\n") == "\n" + ReplaceLineBreaks(u[1..], "\n");
    } else {
      assert e + 1 == j;
      assert |u| >= 2 && u[0] == '\r' && u[1] == '\n' && u[2..] == s[j + 1..];
      assert ReplaceLineBreaks(u, "\n") == "\n" + ReplaceLineBreaks(u[2..], "\n");
    }
  }

  lemma LfSuffixUnchanged(s: string, e: nat)
    requires e <= |s|
    ensures '\r' !in s ==> ReplaceLineBreaks(s[e..], "\n") == s[e..]
  {
    if '\r' !in s {
      assert '\r' !in s[e..];
      LfLineBreaksUnchanged(s[e..]);
    }
  }

  /** The text that addBlockId produces: " ^id" after the first line, the other lines kept
      (line breaks written as LF); the text itself when the item has no block id. */
  function WithBlockId(s: string, blockId: Option<string>): (r: string)
    ensures !Truthy(blockId) ==> r == s
    ensures Truthy(blockId) && '\r' !in s ==>
      r == s[..FirstLineEnd(s)] + " ^" + blockId.value + s[FirstLineEnd(s)..]
  {
    if !Truthy(blockId) then s
    else
      var e := FirstLineEnd(s);
      LfSuffixUnchanged(s, e);
      s[..e] + " ^" + blockId.value + ReplaceLineBreaks(s[e..], "\n")
  }

  /** addBlockId */
  method AddBlockId(s: string, item: Item) returns (r: string)
    ensures r == WithBlockId(s, item.data.blockId)
  {
    if !Truthy(item.data.blockId) {
      return s;
    }
    var lines := SplitLines(s);
    SplitJoinRest(s);
    lines := lines[0 := lines[0] + " ^" + item.data.blockId.value];
    r := JoinLines(lines);
  }

  predicate IsIdChar(c: char) {
    'a' <= c <= 'z' || 'A' <= c <= 'Z' || '0' <= c <= '9' || c == '-'
  }

  /** The length of the run of `[a-zA-Z0-9-]` characters that ends `s`. */
  function TrailingIdChars(s: string): (n: nat)
    ensures n <= |s| && forall i :: |s| - n <= i < |s| ==> IsIdChar(s[i])
    ensures n < |s| ==> !IsIdChar(s[|s| - n - 1])
  {
    if |s| > 0 && IsIdChar(s[|s| - 1]) then 1 + TrailingIdChars(s[..|s| - 1]) else 0
  }

  /** `t` is whitespace, then `^`, then one or more `[a-zA-Z0-9-]`, and nothing else. */
  predicate IsBlockIdTail(t: string) {
    var k := TrailingIdChars(t);
    0 < k && k + 2 <= |t| && t[|t| - k - 1] == '^' && forall i :: 0 <= i < |t| - k - 1 ==> IsWs(t[i])
  }

  /** `line.replace(/\s+\^([a-zA-Z0-9-]+)$/, '')`: drops a whitespace-preceded `^id` that
      ends the line, together with all of the whitespace before it. */
  function StripBlockId(line: string): (r: string)
    ensures r == line || (|r| < |line| && r == line[..|r|] && IsBlockIdTail(line[|r|..]))
    ensures r != line && |r| > 0 ==> !IsWs(r[|r| - 1])
  {
    var k := TrailingIdChars(line);
    if k == 0 || k == |line| || line[|line| - k - 1] != '^' then line
    else
      var p := |line| - k - 1;
      var w := TrailWs(line[..p]);
      if w == 0 then line
      else
        BlockIdTailAt(line, k, p, p - w);
        line[..p - w]
  }

  /** What follows the whitespace run before a `^id` ending is a block-id tail. */
  lemma BlockIdTailAt(line: string, k: nat, p: nat, q: nat)
    requires k == TrailingIdChars(line) && 0 < k && p == |line| - k - 1 && line[p] == '^'
    requires q < p && q == p - TrailWs(line[..p])
    ensures IsBlockIdTail(line[q..])
  {
    TrailingIdCharsOfSuffix(line, q);
    var t := line[q..];
    assert t[|t| - k - 1] == line[p];
    var pre := line[..p];
    assert forall i :: q <= i < p ==> IsWs(pre[i]);
    forall i | 0 <= i < |t| - k - 1 ensures IsWs(t[i]) {
      assert t[i] == pre[q + i];
    }
  }

  lemma {:induction false} TrailingIdCharsOfSuffix(s: string, q: nat)
    requires q <= |s| && TrailingIdChars(s) < |s| - q
    ensures TrailingIdChars(s[q..]) == TrailingIdChars(s)
    decreases |s|
  {
    if |s| > 0 && IsIdChar(s[|s| - 1]) {
      assert s[q..][..|s[q..]| - 1] == s[..|s| - 1][q..];
      TrailingIdCharsOfSuffix(s[..|s| - 1], q);
    }
  }

  /** A block id written after text that does not end in whitespace is stripped exactly. */
  lemma StripBlockIdOfTagged(a: string, w: string, id: string)
    requires |a| > 0 ==> !IsWs(a[|a| - 1])
    requires |w| > 0 && forall i :: 0 <= i < |w| ==> IsWs(w[i])
    requires |id| > 0 && forall i :: 0 <= i < |id| ==> IsIdChar(id[i])
    ensures StripBlockId(a + w + "^" + id) == a
  {
    var line := a + w + "^" + id;
    var p := |a| + |w|;
    IdCharsAfter(a + w + "^", id);
    assert line[p] == '^';
    assert line[..p] == a + w;
    TrailWsAfter(a, w);
    StripBlockIdAt(line, |id|, p, |w|);
    assert line[..p - |w|] == a;
  }

  /** Where the `^id` ending and the whitespace before it are known, the line is cut there. */
  lemma StripBlockIdAt(line: string, k: nat, p: nat, w: nat)
    requires k == TrailingIdChars(line) && 0 < k < |line| && p == |line| - k - 1 && line[p] == '^'
    requires w == TrailWs(line[..p]) && 0 < w
    ensures StripBlockId(line) == line[..p - w]
  {
  }

  /** The trailing id run of `pre + id` is `id` when `pre` ends in `^`. */
  lemma IdCharsAfter(pre: string, id: string)
    requires |pre| > 0 && pre[|pre| - 1] == '^'
    requires forall i :: 0 <= i < |id| ==> IsIdChar(id[i])
    ensures TrailingIdChars(pre + id) == |id|
  {
    var s := pre + id;
    assert forall i :: |pre| <= i < |s| ==> s[i] == id[i - |pre|];
    assert s[|pre| - 1] == '^' && !IsIdChar('^');
  }

  /** The text that removeBlockId produces: the first line stripped of a trailing block id,
      the other lines kept (line breaks written as LF). */
  function WithoutBlockId(s: string): (r: string)
    ensures '\r' !in s ==> r == StripBlockId(s[..FirstLineEnd(s)]) + s[FirstLineEnd(s)..]
  {
    var e := FirstLineEnd(s);
    LfSuffixUnchanged(s, e);
    StripBlockId(s[..e]) + ReplaceLineBreaks(s[e..], "\n")
  }

  /** removeBlockId */
  method RemoveBlockId(s: string) returns (r: string)
    ensures r == WithoutBlockId(s)
  {
    var lines := SplitLines(s);
    SplitJoinRest(s);
    lines := lines[0 := StripBlockId(lines[0])];
    r := JoinLines(lines);
  }

  lemma FirstLineEndAfterPlainPrefix(a: string, b: string)
    requires '\n' !in a && '\r' !in a
    requires |b| == 0 || b[0] == '\n'
    ensures FirstLineEnd(a + b) == |a|
  {
    var s := a + b;
    var j := IndexOfLf(s);
    assert forall i :: 0 <= i < |a| ==> s[i] == a[i];
    assert |b| > 0 ==> s[|a|] == b[0];
    if |a| > 0 {
      assert s[|a| - 1] == a[|a| - 1];
    }
  }

  /** Adding a block id to text without carriage returns lengthens the first line only. */
  lemma TaggedFirstLine(s: string, id: string)
    requires '\r' !in s
    requires |id| > 0 && forall i :: 0 <= i < |id| ==> IsIdChar(id[i])
    ensures var e := FirstLineEnd(s); var tagged := s[..e] + " ^" + id;
      var t := WithBlockId(s, Some(id));
      t == tagged + s[e..] && '\r' !in t && FirstLineEnd(t) == |tagged|
  {
    var e := FirstLineEnd(s);
    var tagged := s[..e] + " ^" + id;
    assert forall i :: 0 <= i < |id| ==> id[i] != '\n' && id[i] != '\r';
    assert '\n' !in tagged && '\r' !in tagged;
    assert e < |s| ==> s[e] == '\n';
    FirstLineEndAfterPlainPrefix(tagged, s[e..]);
  }

  /** Removing a block id undoes adding it, when the text has no carriage return, its
      first line does not end in whitespace and the id is a valid block id. */
  lemma BlockIdRoundTrip(s: string, id: string)
    requires '\r' !in s
    requires var e := FirstLineEnd(s); e > 0 ==> !IsWs(s[e - 1])
    requires |id| > 0 && forall i :: 0 <= i < |id| ==> IsIdChar(id[i])
    ensures WithoutBlockId(WithBlockId(s, Some(id))) == s
  {
    var e := FirstLineEnd(s);
    var a := s[..e];
    var tagged := a + " ^" + id;
    assert a + s[e..] == s;
    StripTaggedLine(a, id);
    TaggedFirstLine(s, id);
    StripFirstLine(WithBlockId(s, Some(id)), tagged, s[e..], a);
  }

  /** Removing the id from a line tagged by addBlockId gives the line back. */
  lemma StripTaggedLine(a: string, id: string)
    requires |a| > 0 ==> !IsWs(a[|a| - 1])
    requires |id| > 0 && forall i :: 0 <= i < |id| ==> IsIdChar(id[i])
    ensures StripBlockId(a + " ^" + id) == a
  {
    assert a + " ^" + id == a + " " + "^" + id;
    StripBlockIdOfTagged(a, " ", id);
  }

  /** Removing the block id of a text whose first line is `line` works on that line alone. */
  lemma StripFirstLine(t: string, line: string, rest: string, a: string)
    requires t == line + rest && '\r' !in t && FirstLineEnd(t) == |line|
    requires StripBlockId(line) == a
    ensures WithoutBlockId(t) == a + rest
  {
    assert t[..|line|] == line && t[|line|..] == rest;
  }
}
