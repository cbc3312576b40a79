/** parseLaneTitle: a lane heading may end in a `% status:value %` settings block and an
    item cap `(N)`; both are read out of the heading, leaving the display title. */
module LaneTitle {
  import opened KanbanTypes
  import opened Text
  import opened Fragments

  /** LaneTitleSettings. `sorted` is declared but never filled by the parser. */
  datatype LaneTitleSettings = LaneTitleSettings(
    title: string,
    maxItems: nat,
    complete: Option<bool>,
    applyStatus: Option<string>,
    sorted: Option<string>)

  /** The last index of `c` in `s`, or -1. */
  function LastIndexOf(s: string, c: char): (i: int)
    ensures -1 <= i < |s|
    ensures i >= 0 ==> s[i] == c
    ensures forall j :: i < j < |s| ==> s[j] != c
  {
    if |s| == 0 then -1
    else if s[|s| - 1] == c then |s| - 1
    else LastIndexOf(s[..|s| - 1], c)
  }

  // ---------------------------------------------------------------------------------
  // The settings block  /\s*%\s*([^%]+)\s*%\s*$/
  // ---------------------------------------------------------------------------------

  /** A match of the settings regex: it runs from `start` to the end of the heading, and
      `open` and `close` are its percent signs. */
  datatype SettingsMatch = SettingsMatch(start: nat, open: nat, close: nat)

  /** `open` and `close` are percent signs enclosing a non-empty, percent-free text, and only
      whitespace follows `close`. */
  predicate IsSettingsBlock(str: string, open: int, close: int) {
    && 0 <= open && open + 1 < close < |str|
    && str[open] == '%' && str[close] == '%'
    && (forall i :: open < i < close ==> str[i] != '%')
    && (forall i :: close < i < |str| ==> IsWs(str[i]))
  }

  /** What `\s*([^%]+)` captures of the text between the percent signs: the text without
      its leading whitespace, or its last character when it is all whitespace. */
  function DirectiveOf(content: string): (d: string)
    requires 0 < |content|
    ensures 0 < |d| <= |content| && d == content[|content| - |d|..]
    ensures forall i :: 0 <= i < |content| - |d| ==> IsWs(content[i])
    ensures |d| > 1 ==> !IsWs(d[0])
  {
    var lead := LeadWs(content);
    if lead < |content| then content[lead..] else content[|content| - 1..]
  }

  /** The leftmost match of the settings regex. */
  function SettingsBlock(str: string): (r: Option<SettingsMatch>)
    ensures r.Some? ==> r.value.start <= r.value.open && r.value.open + 1 < r.value.close < |str|
  {
    var t := TrailWs(str);
    if t == |str| then None
    else
      var close := |str| - t - 1;
      if str[close] != '%' then None
      else
        var open := LastIndexOf(str[..close], '%');
        if open < 0 || open + 1 == close then None
        else
          assert forall i :: open < i < close ==> str[i] == str[..close][i];
          var w := TrailWs(str[..open]);
          assert forall i :: open - w <= i < open ==> str[i] == str[..open][i];
          Some(SettingsMatch(open - w, open, close))
  }

  /** A settings match has the regex's shape: the block is preceded by whitespace back to
      `start`, which is as far left as the whitespace reaches. */
  lemma SettingsBlockShape(str: string)
    ensures var r := SettingsBlock(str);
      r.Some? ==>
        && IsSettingsBlock(str, r.value.open, r.value.close)
        && (forall i :: r.value.start <= i < r.value.open ==> IsWs(str[i]))
        && (r.value.start == 0 || !IsWs(str[r.value.start - 1]))
  {
  }

  /** Whenever the heading has the shape of a settings block, the regex finds that block. */
  lemma SettingsBlockFound(str: string, open: int, close: int)
    requires IsSettingsBlock(str, open, close)
    ensures SettingsBlock(str).Some?
    ensures SettingsBlock(str).value.open == open && SettingsBlock(str).value.close == close
  {
    var t := TrailWs(str);
    assert t == |str| - close - 1 by {
      assert !IsWs(str[close]);
    }
    var o := LastIndexOf(str[..close], '%');
    assert str[..close][open] == '%';
    assert forall i :: open < i < close ==> str[..close][i] == str[i];
  }

  // ---------------------------------------------------------------------------------
  // The status directive  /status:([^,\s]+)/
  // ---------------------------------------------------------------------------------

  predicate IsValueChar(c: char) {
    c != ',' && !IsWs(c)
  }

  /** The length of the run of `[^,\s]` characters that starts `s`. */
  function ValueRun(s: string): (n: nat)
    ensures n <= |s| && forall i :: 0 <= i < n ==> IsValueChar(s[i])
    ensures n < |s| ==> !IsValueChar(s[n])
  {
    if |s| > 0 && IsValueChar(s[0]) then 1 + ValueRun(s[1..]) else 0
  }

  /** What `([^,\s]+)` accepts: a non-empty text without commas or whitespace. */
  predicate IsStatusValue(v: string) {
    0 < |v| && forall k :: 0 <= k < |v| ==> IsValueChar(v[k])
  }

  /** The status regex matches at `i`. */
  predicate StatusAt(d: string, i: int) {
    OccursAt(d, "status:", i) && i + 7 < |d| && IsValueChar(d[i + 7])
  }

  /** The first position at or after `k` where the status regex matches, or -1. */
  function StatusIndexFrom(d: string, k: nat): (i: int)
    requires k <= |d|
    ensures i == -1 || (k <= i && StatusAt(d, i))
    ensures forall j :: k <= j && (i == -1 || j < i) ==> !StatusAt(d, j)
    decreases |d| - k
  {
    if k == |d| then -1
    else if StatusAt(d, k) then k
    else StatusIndexFrom(d, k + 1)
  }

  /** The value of the leftmost `status:` directive, if any. */
  function FindStatus(d: string): (r: Option<string>)
    ensures r.None? <==> forall i :: !StatusAt(d, i)
    ensures r.Some? ==>
      var i := StatusIndexFrom(d, 0);
      && IsStatusValue(r.value)
      && OccursAt(d, "status:" + r.value, i)
      && (i + 7 + |r.value| == |d| || !IsValueChar(d[i + 7 + |r.value|]))
  {
    var i := StatusIndexFrom(d, 0);
    if i < 0 then None
    else
      var n := ValueRun(d[i + 7..]);
      var v := d[i + 7..i + 7 + n];
      SliceSplit(d, i, i + 7, i + 7 + n);
      Some(v)
  }

  lemma SliceSplit(d: string, i: nat, j: nat, k: nat)
    requires i <= j <= k <= |d|
    ensures d[i..k] == d[i..j] + d[j..k]
  {
  }

  // ---------------------------------------------------------------------------------
  // The item cap  /^(.*?)\s*\((\d+)\)$/
  // ---------------------------------------------------------------------------------

  /** The length of the run of decimal digits that ends `s`. */
  function TrailingDigits(s: string): (n: nat)
    ensures n <= |s| && forall i :: |s| - n <= i < |s| ==> IsDigit(s[i])
    ensures n < |s| ==> !IsDigit(s[|s| - n - 1])
  {
    if |s| > 0 && IsDigit(s[|s| - 1]) then 1 + TrailingDigits(s[..|s| - 1]) else 0
  }

  /** The two groups of the cap regex: the title before the cap and the digits of the cap. */
  datatype CapMatch = CapMatch(title: string, digits: string)

  /** Where the `(` of a trailing `(digits)` sits, or -1 when the heading does not end so. */
  function CapParen(str: string): (q: int)
    ensures q == -1 || (0 <= q && q + 2 < |str| && str[q] == '(' && str[|str| - 1] == ')'
      && forall i :: q < i < |str| - 1 ==> IsDigit(str[i]))
  {
    if |str| == 0 || str[|str| - 1] != ')' then -1
    else
      var body := str[..|str| - 1];
      var k := TrailingDigits(body);
      if k == 0 || k == |body| || body[|body| - k - 1] != '(' then -1
      else
        assert forall i :: |body| - k <= i < |body| ==> str[i] == body[i];
        |body| - k - 1
  }

  /** The two groups of the cap regex, when it matches. */
  function ItemCap(str: string): (r: Option<CapMatch>)
  {
    var q := CapParen(str);
    if q < 0 then None
    else
      var l := q - TrailWs(str[..q]);
      if exists i | 0 <= i < l :: IsLineTerminator(str[i]) then None
      else Some(CapMatch(str[..l], str[q + 1..|str| - 1]))
  }

  /** A cap match splits the heading into `title`, whitespace, `(`, digits, `)`; the title
      holds no line terminator (`.` does not match one) and, the group being lazy, ends in
      no whitespace. */
  lemma ItemCapShape(str: string)
    ensures ItemCap(str).Some? ==>
      var t := ItemCap(str).value.title;
      var d := ItemCap(str).value.digits;
      && |t| + |d| + 2 <= |str|
      && str[..|t|] == t
      && str[|str| - |d| - 2..] == "(" + d + ")"
      && (forall i :: |t| <= i < |str| - |d| - 2 ==> IsWs(str[i]))
      && 0 < |d| && (forall i :: 0 <= i < |d| ==> IsDigit(d[i]))
      && (forall i :: 0 <= i < |t| ==> !IsLineTerminator(t[i]))
      && (|t| > 0 ==> !IsWs(t[|t| - 1]))
  {
  }

  /** A heading of the cap's shape is always recognised, even when the whitespace before the
      parenthesis holds a line break. */
  lemma CapFound(t: string, w: string, d: string)
    requires forall i :: 0 <= i < |t| ==> !IsLineTerminator(t[i])
    requires |t| > 0 ==> !IsWs(t[|t| - 1])
    requires forall i :: 0 <= i < |w| ==> IsWs(w[i])
    requires 0 < |d| && forall i :: 0 <= i < |d| ==> IsDigit(d[i])
    ensures ItemCap(t + w + "(" + d + ")") == Some(CapMatch(t, d))
  {
    var str := t + w + "(" + d + ")";
    var q := |t| + |w|;
    CapParenAfter(t + w + "(", d);
    assert str == (t + w + "(") + d + ")";
    assert str[..q] == t + w;
    TrailWsAfter(t, w);
    assert forall i :: 0 <= i < |t| ==> str[i] == t[i];
    assert str[..|t|] == t;
    assert str[q + 1..|str| - 1] == d;
  }

  /** The cap's parenthesis is found where it was written. */
  lemma CapParenAfter(a: string, d: string)
    requires 0 < |a| && a[|a| - 1] == '('
    requires 0 < |d| && forall i :: 0 <= i < |d| ==> IsDigit(d[i])
    ensures CapParen(a + d + ")") == |a| - 1
  {
    var str := a + d + ")";
    assert str[..|str| - 1] == a + d;
    DigitsAfter(a, d);
  }

  /** The trailing digit run of `a + d` is `d` when `a` ends in `(`. */
  lemma DigitsAfter(a: string, d: string)
    requires 0 < |a| && a[|a| - 1] == '('
    requires forall i :: 0 <= i < |d| ==> IsDigit(d[i])
    ensures TrailingDigits(a + d) == |d|
  {
    var s := a + d;
    assert forall i :: |a| <= i < |s| ==> s[i] == d[i - |a|];
    assert s[|a| - 1] == '(';
  }

  // ---------------------------------------------------------------------------------
  // parseLaneTitle
  // ---------------------------------------------------------------------------------

  /** The heading with any settings block cut off, and the value of the block's `status:`
      directive. */
  datatype SettingsRead = SettingsRead(rest: string, status: Option<string>)

  /** Reads and removes the settings block. */
  function ReadSettings(s: string): (r: SettingsRead)
    ensures |r.rest| <= |s| && r.rest == s[..|r.rest|]
    ensures r.status.Some? ==> SettingsBlock(s).Some? && IsStatusValue(r.status.value)
  {
    match SettingsBlock(s)
    case None => SettingsRead(s, None)
    case Some(m) => SettingsRead(s[..m.start], FindStatus(DirectiveOf(s[m.open + 1..m.close])))
  }

  /** The completion flag a status value sets. */
  function CompleteFlag(status: Option<string>): Option<bool> {
    if status == Some("completion") then Some(true) else None
  }

  /** The named status a status value sets. */
  function NamedStatus(status: Option<string>): Option<string> {
    if status.Some? && status.value != "completion" then status else None
  }

  /** The result record: the cap read from what is left of the heading, with the settings
      read from the block. */
  function WithCap(rest: string, complete: Option<bool>, applyStatus: Option<string>): (r: LaneTitleSettings)
    ensures r.complete == complete && r.applyStatus == applyStatus && r.sorted.None?
  {
    match ItemCap(rest)
    case Some(cap) => LaneTitleSettings(cap.title, DecimalValue(cap.digits), complete, applyStatus, None)
    case None => LaneTitleSettings(rest, 0, complete, applyStatus, None)
  }

  /** The settings read from a heading whose `<br>` placeholders are already line breaks. */
  function TitleSettings(s: string): (r: LaneTitleSettings)
    ensures !(r.complete.Some? && r.applyStatus.Some?)
    ensures r.complete.Some? ==> r.complete.value
    ensures r.applyStatus.Some? ==>
      IsStatusValue(r.applyStatus.value) && r.applyStatus.value != "completion"
    ensures r.sorted.None?
  {
    var read := ReadSettings(s);
    WithCap(read.rest, CompleteFlag(read.status), NamedStatus(read.status))
  }

  /** The settings parseLaneTitle reads out of the heading `raw`: the flags it can set are
      exclusive, a named status is a non-empty value without commas or whitespace, and
      `sorted` stays unset. */
  function LaneTitleSettingsOf(raw: string): (r: LaneTitleSettings)
    ensures !(r.complete.Some? && r.applyStatus.Some?)
    ensures r.complete.Some? ==> r.complete.value
    ensures r.applyStatus.Some? ==>
      IsStatusValue(r.applyStatus.value) && r.applyStatus.value != "completion"
    ensures r.sorted.None?
  {
    TitleSettings(ReplaceBrs(raw))
  }

  /** parseLaneTitle */
  method ParseLaneTitle(raw: string) returns (r: LaneTitleSettings)
    ensures r == LaneTitleSettingsOf(raw)
  {
    var str := ReplaceBrs(raw);
    var complete, applyStatus;
    str, complete, applyStatus := TakeSettingsBlock(str);
    r := WithCap(str, complete, applyStatus);
  }

  /** The settings step of parseLaneTitle: the flags set from the block's `status:`
      directive, and the heading with the block removed. */
  method TakeSettingsBlock(str: string) returns (rest: string, complete: Option<bool>, applyStatus: Option<string>)
    ensures var read := ReadSettings(str);
      rest == read.rest && complete == CompleteFlag(read.status) && applyStatus == NamedStatus(read.status)
  {
    rest := str;
    complete, applyStatus := None, None;
    var block := SettingsBlock(str);
    if block.Some? {
      var statusMatch := FindStatus(DirectiveOf(str[block.value.open + 1..block.value.close]));
      if statusMatch.Some? {
        if statusMatch.value == "completion" {
          complete := Some(true);
        } else {
          applyStatus := Some(statusMatch.value);
        }
      }
      rest := str[..block.value.start];
    }
  }

  /** The title never keeps any part of a settings block: it is a prefix of the heading
      that ends before the block starts. */
  lemma BlockRemovedFromTitle(raw: string)
    requires SettingsBlock(ReplaceBrs(raw)).Some?
    ensures var s := ReplaceBrs(raw); var r := LaneTitleSettingsOf(raw);
      |r.title| <= SettingsBlock(s).value.start && r.title == s[..|r.title|]
  {
    var s := ReplaceBrs(raw);
    var rest := ReadSettings(s).rest;
    var t := LaneTitleSettingsOf(raw).title;
    TitleWithinRest(raw);
    RestBeforeBlock(s);
    PrefixOfPrefix(s, SettingsBlock(s).value.start, rest, t);
  }

  /** A prefix of a prefix of `s` is a prefix of `s`. */
  lemma PrefixOfPrefix(s: string, k: nat, rest: string, t: string)
    requires k <= |s| && rest == s[..k] && |t| <= |rest| && t == rest[..|t|]
    ensures |t| <= k && t == s[..|t|]
  {
  }

  /** The title is a prefix of what the settings step leaves. */
  lemma TitleWithinRest(raw: string)
    ensures var rest := ReadSettings(ReplaceBrs(raw)).rest; var t := LaneTitleSettingsOf(raw).title;
      |t| <= |rest| && t == rest[..|t|]
  {
    var read := ReadSettings(ReplaceBrs(raw));
    CapTitleIsPrefix(read.rest, CompleteFlag(read.status), NamedStatus(read.status));
  }

  /** The cap step keeps a prefix of the heading as the title. */
  lemma CapTitleIsPrefix(rest: string, complete: Option<bool>, applyStatus: Option<string>)
    ensures var t := WithCap(rest, complete, applyStatus).title;
      |t| <= |rest| && t == rest[..|t|]
  {
    ItemCapShape(rest);
  }

  /** The settings step leaves the heading up to the start of the block. */
  lemma RestBeforeBlock(s: string)
    requires SettingsBlock(s).Some?
    ensures SettingsBlock(s).value.start <= |s| && ReadSettings(s).rest == s[..SettingsBlock(s).value.start]
  {
  }

  /** Text that does not end in `%` (after trimming) has no settings block. */
  lemma NoBlockWithoutPercent(s: string)
    requires NoEdgeWs(s) && (|s| == 0 || s[|s| - 1] != '%')
    ensures SettingsBlock(s).None? && ReadSettings(s) == SettingsRead(s, None)
  {
    if |s| > 0 {
      assert TrailWs(s) == 0;
    }
  }

  /** A heading that ends in neither `%` nor `)` is its own title, with no cap and no
      status. */
  lemma PlainHeading(raw: string)
    requires var s := ReplaceBrs(raw); |s| == 0 || (s[|s| - 1] != '%' && s[|s| - 1] != ')')
    ensures LaneTitleSettingsOf(raw) == LaneTitleSettings(ReplaceBrs(raw), 0, None, None, None)
  {
    var s := ReplaceBrs(raw);
    NoBlockWithoutPercent(s);
    assert CapParen(s) == -1;
  }

  /** Text with no `<` and no whitespace at its ends passes through replaceBrs unchanged. */
  lemma PlainText(s: string)
    requires '<' !in s && NoEdgeWs(s)
    ensures ReplaceBrs(s) == s && LaneTitleSettingsOf(s) == TitleSettings(s)
  {
    BrTagsWithoutAngle(s);
    TrimOfTrimmed(s);
  }

  /** The cap step of a heading without a settings block. */
  lemma CapOfPlainText(s: string)
    requires NoEdgeWs(s) && (|s| == 0 || s[|s| - 1] != '%')
    ensures TitleSettings(s) == WithCap(s, None, None)
  {
    NoBlockWithoutPercent(s);
  }

  /** Writing a cap after a title and parsing it back gives the title and the cap's value. */
  lemma CapRoundTrip(t: string, w: string, d: string)
    requires 0 < |t| && NoEdgeWs(t) && '<' !in t
    requires forall i :: 0 <= i < |t| ==> !IsLineTerminator(t[i])
    requires forall i :: 0 <= i < |w| ==> IsWs(w[i])
    requires 0 < |d| && forall i :: 0 <= i < |d| ==> IsDigit(d[i])
    ensures LaneTitleSettingsOf(t + w + "(" + d + ")")
      == LaneTitleSettings(t, DecimalValue(d), None, None, None)
  {
    var s := t + w + "(" + d + ")";
    CapHeadingPlain(t, w, d);
    PlainText(s);
    CapOfPlainText(s);
    CapFound(t, w, d);
  }

  /** A heading written as title, whitespace and `(digits)` holds no `<`, has no whitespace
      at its ends and ends in `)`. */
  lemma CapHeadingPlain(t: string, w: string, d: string)
    requires 0 < |t| && !IsWs(t[0]) && '<' !in t
    requires forall i :: 0 <= i < |w| ==> IsWs(w[i])
    requires forall i :: 0 <= i < |d| ==> IsDigit(d[i])
    ensures var s := t + w + "(" + d + ")";
      '<' !in s && NoEdgeWs(s) && s[|s| - 1] == ')'
  {
    var s := t + w + "(" + d + ")";
    forall i | 0 <= i < |s| ensures s[i] != '<' {
      if i < |t| {
        assert s[i] == t[i] && t[i] in t;
      } else if i < |t| + |w| {
        assert s[i] == w[i - |t|];
      } else if i > |t| + |w| && i < |s| - 1 {
        assert s[i] == d[i - |t| - |w| - 1];
      }
    }
    assert s[0] == t[0];
  }

  /** "Backlog (5)" is the title "Backlog" with a cap of five items, and a line break
      between the title and the cap, as in "Backlog\n(5)", does not prevent the cap from
      being read. */
  lemma BacklogExample(heading: string, w: string)
    requires w == " " || w == "\n"
    requires heading == "Backlog" + w + "(5)"
    ensures LaneTitleSettingsOf(heading) == LaneTitleSettings("Backlog", 5, None, None, None)
  {
    assert IsWs(w[0]);
    assert heading == "Backlog" + w + "(" + "5" + ")";
    CapRoundTrip("Backlog", w, "5");
    assert DecimalValue("5") == 5 by {
      assert "5"[..0] == "";
    }
  }

  /** A line break inside the title part does prevent it: the whole heading is the title. */
  lemma LineBreakInTitleExample(heading: string)
    requires heading == "To\ndo (5)"
    ensures LaneTitleSettingsOf(heading) == LaneTitleSettings(heading, 0, None, None, None)
  {
    var s := heading;
    PlainText(s);
    CapOfPlainText(s);
    LineBreakInTitleCap();
  }

  lemma LineBreakInTitleCap()
    ensures ItemCap("To\ndo (5)").None?
  {
    var s := "To\ndo (5)";
    CapParenAfter("To\ndo (", "5");
    assert "To\ndo (" + "5" + ")" == s;
    assert s[..6] == "To\ndo" + " ";
    TrailWsAfter("To\ndo", " ");
    assert IsLineTerminator(s[2]);
  }

  /** The heading `t % status:v %` has a settings block that starts right after `t`. */
  lemma DirectiveBlock(t: string, v: string)
    requires 0 < |t| && !IsWs(t[|t| - 1]) && '%' !in v
    ensures var s := t + " % status:" + v + " %";
      && SettingsBlock(s) == Some(SettingsMatch(|t|, |t| + 1, |s| - 1))
      && s[..|t|] == t && s[|t| + 2..|s| - 1] == " status:" + v + " "
  {
    var s := t + " % status:" + v + " %";
    var n := |t|;
    var close := |s| - 1;
    assert forall i :: n + 2 <= i < close ==> s[i] == (" status:" + v + " ")[i - n - 2];
    assert s[n - 1] == t[n - 1] && s[n] == ' ' && s[n + 1] == '%' && s[close] == '%';
    assert forall i :: n + 1 < i < close ==> s[i] != '%';
    SettingsBlockFound(s, n + 1, close);
    SettingsBlockShape(s);
    assert s[..n] == t;
    assert s[n + 2..close] == " status:" + v + " ";
  }

  /** The directive `status:v` yields the value `v`. */
  lemma StatusOfDirective(v: string)
    requires IsStatusValue(v)
    ensures FindStatus(DirectiveOf(" status:" + v + " ")) == Some(v)
  {
    var content := " status:" + v + " ";
    var d := DirectiveOf(content);
    assert content[1] == 's' && IsWs(content[0]);
    assert d == "status:" + v + " ";
    StatusValueRead(d, v);
  }

  /** `status:v ` holds the directive at its start, with the value `v`. */
  lemma StatusValueRead(d: string, v: string)
    requires IsStatusValue(v) && d == "status:" + v + " "
    ensures FindStatus(d) == Some(v)
  {
    assert StatusAt(d, 0) by {
      assert d[..7] == "status:";
    }
    assert d[7..] == v + " ";
    assert ValueRun(d[7..]) == |v| by {
      assert forall i :: 0 <= i < |v| ==> d[7..][i] == v[i];
      assert d[7..][|v|] == ' ';
    }
    assert d[7..7 + |v|] == v;
  }

  /** The settings block `% status:v %` after a title is read as the status `v`, leaving the
      title. */
  lemma DirectiveSettings(t: string, v: string)
    requires 0 < |t| && !IsWs(t[|t| - 1])
    requires IsStatusValue(v) && '%' !in v
    ensures ReadSettings(t + " % status:" + v + " %") == SettingsRead(t, Some(v))
  {
    DirectiveBlock(t, v);
    StatusOfDirective(v);
  }

  /** A `status:` directive in a settings block after a title sets the completion flag for
      the value `completion` and names the status otherwise; the title and cap are read
      from the text before the block exactly as if the block were absent. */
  lemma DirectiveRead(t: string, v: string)
    requires 0 < |t| && NoEdgeWs(t) && '<' !in t && '%' !in t
    requires IsStatusValue(v) && '<' !in v && '%' !in v
    ensures var r := LaneTitleSettingsOf(t + " % status:" + v + " %");
      && r.title == LaneTitleSettingsOf(t).title
      && r.maxItems == LaneTitleSettingsOf(t).maxItems
      && r.complete == (if v == "completion" then Some(true) else None)
      && r.applyStatus == (if v == "completion" then None else Some(v))
  {
    var s := t + " % status:" + v + " %";
    assert '<' !in s;
    assert s[0] == t[0] && s[|s| - 1] == '%';
    PlainText(s);
    DirectiveSettings(t, v);
    PlainText(t);
    CapOfPlainText(t);
  }

  /** "Done % status:completion %" is a completion lane titled "Done". */
  lemma CompletionExample(heading: string)
    requires heading == "Done % status:completion %"
    ensures LaneTitleSettingsOf(heading) == LaneTitleSettings("Done", 0, Some(true), None, None)
  {
    assert heading == "Done" + " % status:" + "completion" + " %";
    assert NoEdgeWs("Done") && '<' !in "Done" && '%' !in "Done";
    assert IsStatusValue("completion") && '<' !in "completion" && '%' !in "completion";
    DirectiveRead("Done", "completion");
    DoneTitle();
  }

  /** The plain heading "Done" is its own title and sets no cap. */
  lemma DoneTitle()
    ensures LaneTitleSettingsOf("Done").title == "Done" && LaneTitleSettingsOf("Done").maxItems == 0
  {
    PlainText("Done");
    CapOfPlainText("Done");
    assert CapParen("Done") == -1;
  }
}
