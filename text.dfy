/** String vocabulary shared by the parsers: JavaScript's notion of whitespace, `trim`,
    substring search and the `/(?:\r\n|\n)/g` line-break substitution. Strings are
    sequences of characters. */
module Text {

  /** The characters matched by the regular-expression class `\s`, which are also the
      characters `String.prototype.trim` strips (white space and line terminators). */
  predicate IsWs(c: char) {
    || c == '\t' || c == '\n' || c == '\U{000B}' || c == '\U{000C}' || c == '\r' || c == ' '
    || c == '\U{00A0}' || c == '\U{1680}' || ('\U{2000}' <= c <= '\U{200A}')
    || c == '\U{2028}' || c == '\U{2029}' || c == '\U{202F}' || c == '\U{205F}'
    || c == '\U{3000}' || c == '\U{FEFF}'
  }

  /** The characters the regular-expression `.` does not match. */
  predicate IsLineTerminator(c: char) {
    c == '\n' || c == '\r' || c == '\U{2028}' || c == '\U{2029}'
  }

  /** True when `s` neither begins nor ends with whitespace. */
  predicate NoEdgeWs(s: string) {
    |s| > 0 ==> !IsWs(s[0]) && !IsWs(s[|s| - 1])
  }

  /** The length of the longest all-whitespace prefix. */
  function LeadWs(s: string): (n: nat)
    ensures n <= |s|
    ensures forall i :: 0 <= i < n ==> IsWs(s[i])
    ensures n < |s| ==> !IsWs(s[n])
  {
    if |s| > 0 && IsWs(s[0]) then 1 + LeadWs(s[1..]) else 0
  }

  /** The length of the longest all-whitespace suffix. */
  function TrailWs(s: string): (n: nat)
    ensures n <= |s|
    ensures forall i :: |s| - n <= i < |s| ==> IsWs(s[i])
    ensures n < |s| ==> !IsWs(s[|s| - n - 1])
  {
    if |s| > 0 && IsWs(s[|s| - 1]) then 1 + TrailWs(s[..|s| - 1]) else 0
  }

  /** `String.prototype.trim`: the slice of `s` left after dropping whitespace at both ends. */
  function Trim(s: string): (r: string)
    ensures NoEdgeWs(r) && |r| <= |s|
  {
    var t := s[LeadWs(s)..];
    t[..|t| - TrailWs(t)]
  }

  /** What `trim` keeps is a contiguous part of the text, after its leading whitespace. */
  lemma TrimIsSlice(s: string)
    ensures LeadWs(s) + |Trim(s)| <= |s| && Trim(s) == s[LeadWs(s)..LeadWs(s) + |Trim(s)|]
  {
  }

  lemma TrimOfTrimmed(s: string)
    requires NoEdgeWs(s)
    ensures Trim(s) == s
  {
    if |s| > 0 {
      assert LeadWs(s) == 0;
      assert TrailWs(s) == 0;
    }
  }

  lemma TrimIdempotent(s: string)
    ensures Trim(Trim(s)) == Trim(s)
  {
    TrimOfTrimmed(Trim(s));
  }

  /** `s` begins with `p`. */
  predicate StartsWith(s: string, p: string) {
    |p| <= |s| && s[..|p|] == p
  }

  /** `p` occurs in `s` at index `i`. */
  predicate OccursAt(s: string, p: string, i: int) {
    0 <= i && i + |p| <= |s| && s[i..i + |p|] == p
  }

  /** `String.prototype.includes`. */
  predicate Contains(s: string, p: string) {
    exists i | 0 <= i <= |s| :: OccursAt(s, p, i)
  }

  /** An occurrence inside a slice is an occurrence in the whole string. */
  lemma ContainsOfSlice(s: string, a: nat, b: nat, p: string)
    requires a <= b <= |s|
    requires Contains(s[a..b], p)
    ensures Contains(s, p)
  {
    var i :| 0 <= i <= |s[a..b]| && OccursAt(s[a..b], p, i);
    forall k | 0 <= k < |p| ensures p[k] == s[a + i + k] {
      assert p[k] == s[a..b][i..i + |p|][k] == s[a..b][i + k];
    }
    assert OccursAt(s, p, a + i);
  }

  /** `s.replace(/(?:\r\n|\n)/g, rep)`: every CRLF pair or lone LF becomes `rep`; a lone CR
      is kept. */
  function ReplaceLineBreaks(s: string, rep: string): string
    decreases |s|
  {
    if |s| == 0 then []
    else if |s| >= 2 && s[0] == '\r' && s[1] == '\n' then rep + ReplaceLineBreaks(s[2..], rep)
    else if s[0] == '\n' then rep + ReplaceLineBreaks(s[1..], rep)
    else [s[0]] + ReplaceLineBreaks(s[1..], rep)
  }

  /** Without carriage returns, rewriting line breaks as LF changes nothing. */
  lemma {:induction false} LfLineBreaksUnchanged(s: string)
    requires '\r' !in s
    ensures ReplaceLineBreaks(s, "\n") == s
    decreases |s|
  {
    if |s| > 0 {
      assert '\r' !in s[1..];
      LfLineBreaksUnchanged(s[1..]);
      assert s == [s[0]] + s[1..];
    }
  }

  /** A prefix without LF passes through the substitution unchanged, unless it ends in the
      CR of a CRLF pair. */
  lemma {:induction false} LineBreaksAfterPlainPrefix(a: string, b: string, rep: string)
    requires '\n' !in a
    requires !(|a| > 0 && a[|a| - 1] == '\r' && |b| > 0 && b[0] == '\n')
    ensures ReplaceLineBreaks(a + b, rep) == a + ReplaceLineBreaks(b, rep)
    decreases |a|
  {
    if |a| > 0 {
      var ab := a + b;
      assert ab[0] == a[0] && ab[0] != '\n';
      assert ab[1..] == a[1..] + b;
      assert !(|ab| >= 2 && ab[0] == '\r' && ab[1] == '\n') by {
        if |a| >= 2 { assert ab[1] == a[1]; assert a[1] in a; }
        else if |ab| >= 2 { assert ab[1] == b[0]; }
      }
      assert ReplaceLineBreaks(ab, rep) == [a[0]] + ReplaceLineBreaks(ab[1..], rep);
      assert '\n' !in a[1..];
      LineBreaksAfterPlainPrefix(a[1..], b, rep);
      assert a + ReplaceLineBreaks(b, rep) == [a[0]] + (a[1..] + ReplaceLineBreaks(b, rep));
    } else {
      assert a + b == b;
    }
  }

  /** The trailing whitespace of `a + w` is `w` when `a` does not end in whitespace. */
  lemma TrailWsAfter(a: string, w: string)
    requires |a| > 0 ==> !IsWs(a[|a| - 1])
    requires forall i :: 0 <= i < |w| ==> IsWs(w[i])
    ensures TrailWs(a + w) == |w|
  {
    var s := a + w;
    assert forall i :: |a| <= i < |s| ==> s[i] == w[i - |a|];
    assert |a| > 0 ==> s[|a| - 1] == a[|a| - 1];
  }

  /** The regular-expression class `\d`: the ASCII decimal digits. */
  predicate IsDigit(c: char) {
    '0' <= c <= '9'
  }

  /** `Number` of a string of decimal digits. */
  function DecimalValue(d: string): (n: nat)
    requires forall i :: 0 <= i < |d| ==> IsDigit(d[i])
    ensures n < Pow10(|d|)
  {
    if |d| == 0 then 0
    else
      var v := DecimalValue(d[..|d| - 1]);
      var c := d[|d| - 1];
      assert IsDigit(c);
      assert 10 * v + 9 < 10 * Pow10(|d| - 1) by {
        assert v + 1 <= Pow10(|d| - 1);
      }
      10 * v + (c as int - '0' as int)
  }

  function Pow10(n: nat): (p: nat)
    ensures p > 0
  {
    if n == 0 then 1 else 10 * Pow10(n - 1)
  }
}
