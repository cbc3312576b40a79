/** The title rewriting maybeCompleteForMove does when a card lands in a lane without a
    status (src/components/helpers.ts:152-168): every " <token> YYYY-MM-DD" stamp is
    removed, each configured emoji is replaced, with the whitespace around it, by one
    space, runs of whitespace become one space, and the result is trimmed. Each global
    regular-expression replacement is a left-to-right scanner. */
module TitleCleanup {
  import opened KanbanTypes
  import opened Text

  // ---------------------------------------------------------------------------------------
  // Date stamps: /( [^ ]+ \d{4}-\d{2}-\d{2})/g  ->  ''

  /** The text matched by `\d{4}-\d{2}-\d{2}`. */
  predicate IsDate(d: string) {
    |d| == 10 && d[4] == '-' && d[7] == '-'
    && IsDigit(d[0]) && IsDigit(d[1]) && IsDigit(d[2]) && IsDigit(d[3])
    && IsDigit(d[5]) && IsDigit(d[6]) && IsDigit(d[8]) && IsDigit(d[9])
  }

  /** The length of the run of characters other than U+0020 that begins `s` (`[^ ]+` takes
      line breaks and tabs too). */
  function NonSpaceRun(s: string): (n: nat)
    ensures n <= |s| && forall i :: 0 <= i < n ==> s[i] != ' '
    ensures n < |s| ==> s[n] == ' '
  {
    if |s| > 0 && s[0] != ' ' then 1 + NonSpaceRun(s[1..]) else 0
  }

  /** The length of a stamp match at the start of `s`, if one starts there. The greedy token
      can only end where a space follows, so the longest run is the only candidate. */
  function StampAt(s: string): (r: Option<nat>)
    ensures r.Some? ==> 12 < r.value <= |s| && s[0] == ' ' && s[r.value - 11] == ' '
    ensures r.Some? ==> IsDate(s[r.value - 10..r.value])
    ensures r.Some? ==> forall i :: 1 <= i < r.value - 11 ==> s[i] != ' '
  {
    if |s| == 0 || s[0] != ' ' then None
    else
      var n := NonSpaceRun(s[1..]);
      if n >= 1 && 1 + n + 11 <= |s| && IsDate(s[n + 2..n + 12]) then Some(n + 12) else None
  }

  /** The replacement of every stamp by nothing. */
  function StripStamps(s: string): (r: string)
    ensures |r| <= |s|
    decreases |s|
  {
    if |s| == 0 then []
    else match StampAt(s)
      case Some(n) => StripStamps(s[n..])
      case None => [s[0]] + StripStamps(s[1..])
  }

  /** A title with no space holds no stamp and is kept as it is. */
  lemma {:induction false} StripStampsWithoutSpace(t: string)
    requires ' ' !in t
    ensures StripStamps(t) == t
  {
    if |t| > 0 {
      assert ' ' !in t[1..];
      StripStampsWithoutSpace(t[1..]);
      assert t == [t[0]] + t[1..];
    }
  }

  /** A stamp appended to a title without spaces is removed again: the stamp-appending step
      for status lanes and this step are inverse. */
  lemma {:induction false} StripAppendedStamp(t: string, emoji: string, date: string)
    requires ' ' !in t && ' ' !in emoji && emoji != "" && IsDate(date)
    ensures StripStamps(t + " " + emoji + " " + date) == t
    decreases |t|
  {
    var stamp := " " + emoji + " " + date;
    assert t + " " + emoji + " " + date == t + stamp;
    if |t| == 0 {
      assert t + stamp == stamp;
      StampOfSpacedToken(emoji, date);
      assert stamp[|stamp|..] == [];
    } else {
      var s := t + stamp;
      assert s[0] == t[0] && s[0] != ' ';
      assert s[1..] == t[1..] + stamp;
      assert t[1..] + " " + emoji + " " + date == t[1..] + stamp;
      assert StampAt(s).None?;
      assert ' ' !in t[1..];
      StripAppendedStamp(t[1..], emoji, date);
      assert t == [t[0]] + t[1..];
    }
  }

  lemma StampOfSpacedToken(emoji: string, date: string)
    requires ' ' !in emoji && emoji != "" && IsDate(date)
    ensures StampAt(" " + emoji + " " + date) == Some(|emoji| + 12)
  {
    var s := " " + emoji + " " + date;
    assert s[1..] == emoji + (" " + date);
    assert NonSpaceRun(s[1..]) == |emoji| by {
      NonSpaceRunOfWord(emoji, " " + date);
    }
    assert s[|emoji| + 2..|emoji| + 12] == date;
  }

  lemma {:induction false} NonSpaceRunOfWord(w: string, rest: string)
    requires ' ' !in w && |rest| > 0 && rest[0] == ' '
    ensures NonSpaceRun(w + rest) == |w|
    decreases |w|
  {
    if |w| > 0 {
      assert (w + rest)[1..] == w[1..] + rest;
      assert (w + rest)[0] == w[0];
      assert ' ' !in w[1..];
      NonSpaceRunOfWord(w[1..], rest);
    } else {
      assert w + rest == rest;
    }
  }

  // ---------------------------------------------------------------------------------------
  // One emoji: /\s*E\s*/g  ->  ' ', where E is the escaped emoji, matching it literally

  /** The largest `k <= top` with `e` occurring at `k`: the greedy `\s*` before the emoji
      gives characters back until the emoji follows. */
  function BacktrackTo(s: string, e: string, top: nat): (r: Option<nat>)
    requires top <= |s|
    ensures r.Some? ==> r.value <= top && OccursAt(s, e, r.value)
    ensures r.Some? ==> forall k :: r.value < k <= top ==> !OccursAt(s, e, k)
    ensures r.None? ==> forall k :: 0 <= k <= top ==> !OccursAt(s, e, k)
  {
    if OccursAt(s, e, top) then Some(top)
    else if top == 0 then None
    else BacktrackTo(s, e, top - 1)
  }

  /** The length of a match of `\s*E\s*` at the start of `s`, if one starts there. */
  function EmojiAt(s: string, e: string): (r: Option<nat>)
    ensures r.Some? ==> |e| <= r.value <= |s|
  {
    match BacktrackTo(s, e, LeadWs(s))
    case None => None
    case Some(k) => Some(k + |e| + LeadWs(s[k + |e|..]))
  }

  /** The global replacement of the emoji pattern by one space. After an empty match the scan
      moves on by one character, keeping it. */
  function ReplaceEmoji(s: string, e: string): (r: string)
    decreases |s|
  {
    match EmojiAt(s, e)
    case Some(n) =>
      if n > 0 then " " + ReplaceEmoji(s[n..], e)
      else if |s| == 0 then " "
      else " " + [s[0]] + ReplaceEmoji(s[1..], e)
    case None =>
      if |s| == 0 then [] else [s[0]] + ReplaceEmoji(s[1..], e)
  }

  /** A word: non-empty and free of whitespace, as an emoji is expected to be. */
  predicate IsWord(w: string) {
    |w| > 0 && forall i :: 0 <= i < |w| ==> !IsWs(w[i])
  }

  predicate NoWs(w: string) {
    forall i :: 0 <= i < |w| ==> !IsWs(w[i])
  }

  // Occurrences of a word in a scanner's output. The scanners below only copy characters of
  // their input or write a space, so a word that occurs in the output occurred in the input.

  /** An occurrence after a written space is an occurrence in the rest. */
  lemma SpaceStep(t: string, w: string, q: int)
    ensures IsWord(w) && OccursAt(" " + t, w, q) ==> q >= 1 && OccursAt(t, w, q - 1)
  {
    if IsWord(w) && OccursAt(" " + t, w, q) {
      var r := " " + t;
      assert r[q] == w[0];
      assert r[q..q + |w|] == t[q - 1..q - 1 + |w|];
    }
  }

  /** An occurrence after a copied character is in the rest, or starts at that character. */
  lemma CopyStep(c: char, t: string, w: string, q: int)
    ensures OccursAt([c] + t, w, q) && q >= 1 ==> OccursAt(t, w, q - 1)
    ensures OccursAt([c] + t, w, 0) && |w| > 0 ==> w[0] == c && StartsWith(t, w[1..])
  {
    var r := [c] + t;
    if OccursAt(r, w, q) && q >= 1 {
      assert r[q..q + |w|] == t[q - 1..q - 1 + |w|];
    }
    if OccursAt(r, w, 0) && |w| > 0 {
      assert w[0] == r[0];
      assert t[..|w| - 1] == r[1..|w|];
    }
  }

  /** A first character and a matching rest make an occurrence at the start. */
  lemma JoinStart(s: string, w: string)
    ensures |s| > 0 && |w| > 0 && s[0] == w[0] && StartsWith(s[1..], w[1..]) ==> OccursAt(s, w, 0)
  {
    if |s| > 0 && |w| > 0 && s[0] == w[0] && StartsWith(s[1..], w[1..]) {
      assert s[..|w|] == [s[0]] + s[1..][..|w| - 1];
    }
  }

  /** An occurrence in a suffix is an occurrence in the whole text. */
  lemma ContainsOfSuffix(s: string, n: nat, w: string)
    ensures n <= |s| && Contains(s[n..], w) ==> Contains(s, w)
  {
    if n <= |s| && Contains(s[n..], w) {
      assert s[n..|s|] == s[n..];
      ContainsOfSlice(s, n, |s|, w);
    }
  }

  /** A whitespace-free text the replacement begins with was already at the start of the
      input. */
  lemma {:induction false} ReplaceEmojiPrefix(s: string, e: string, w: string)
    ensures NoWs(w) && StartsWith(ReplaceEmoji(s, e), w) ==> StartsWith(s, w)
    decreases |s|
  {
    if |w| > 0 && EmojiAt(s, e).None? && |s| > 0 {
      var t := ReplaceEmoji(s[1..], e);
      CopyStep(s[0], t, w, 0);
      ReplaceEmojiPrefix(s[1..], e, w[1..]);
      JoinStart(s, w);
    }
  }

  /** A word in the output of the emoji replacement occurs in its input. */
  lemma {:induction false} ReplaceEmojiOccurrence(s: string, e: string, w: string, q: int)
    requires IsWord(w)
    ensures OccursAt(ReplaceEmoji(s, e), w, q) ==> Contains(s, w)
    decreases |s|
  {
    match EmojiAt(s, e)
    case Some(n) =>
      if n > 0 {
        ReplaceEmojiOccurrence(s[n..], e, w, q - 1);
        OccurrenceAfterMatch(s, e, w, q, n);
      } else if |s| == 0 {
        SpaceStep([], w, q);
      } else {
        ReplaceEmojiOccurrence(s[1..], e, w, q - 2);
        ReplaceEmojiPrefix(s[1..], e, w[1..]);
        OccurrenceAfterEmptyMatch(s, e, w, q);
      }
    case None =>
      if |s| > 0 {
        ReplaceEmojiOccurrence(s[1..], e, w, q - 1);
        ReplaceEmojiPrefix(s[1..], e, w[1..]);
        OccurrenceAfterCopy(s, e, w, q);
      }
  }

  lemma OccurrenceAfterMatch(s: string, e: string, w: string, q: int, n: nat)
    requires IsWord(w) && EmojiAt(s, e) == Some(n) && n > 0
    requires OccursAt(ReplaceEmoji(s[n..], e), w, q - 1) ==> Contains(s[n..], w)
    ensures OccursAt(ReplaceEmoji(s, e), w, q) ==> Contains(s, w)
  {
    assert ReplaceEmoji(s, e) == " " + ReplaceEmoji(s[n..], e);
    SpaceStep(ReplaceEmoji(s[n..], e), w, q);
    ContainsOfSuffix(s, n, w);
  }

  lemma OccurrenceAfterEmptyMatch(s: string, e: string, w: string, q: int)
    requires IsWord(w) && EmojiAt(s, e) == Some(0) && |s| > 0
    requires OccursAt(ReplaceEmoji(s[1..], e), w, q - 2) ==> Contains(s[1..], w)
    requires StartsWith(ReplaceEmoji(s[1..], e), w[1..]) ==> StartsWith(s[1..], w[1..])
    ensures OccursAt(ReplaceEmoji(s, e), w, q) ==> Contains(s, w)
  {
    var t := ReplaceEmoji(s[1..], e);
    assert ReplaceEmoji(s, e) == " " + ([s[0]] + t);
    SpaceStep([s[0]] + t, w, q);
    CopyStep(s[0], t, w, q - 1);
    ContainsOfSuffix(s, 1, w);
    JoinStart(s, w);
  }

  lemma OccurrenceAfterCopy(s: string, e: string, w: string, q: int)
    requires IsWord(w) && EmojiAt(s, e).None? && |s| > 0
    requires OccursAt(ReplaceEmoji(s[1..], e), w, q - 1) ==> Contains(s[1..], w)
    requires StartsWith(ReplaceEmoji(s[1..], e), w[1..]) ==> StartsWith(s[1..], w[1..])
    ensures OccursAt(ReplaceEmoji(s, e), w, q) ==> Contains(s, w)
  {
    var t := ReplaceEmoji(s[1..], e);
    assert ReplaceEmoji(s, e) == [s[0]] + t;
    CopyStep(s[0], t, w, q);
    ContainsOfSuffix(s, 1, w);
    JoinStart(s, w);
  }

  /** A word that does not occur in the input does not occur in the output. */
  lemma ReplaceEmojiKeepsAbsent(s: string, e: string, w: string)
    requires IsWord(w) && !Contains(s, w)
    ensures !Contains(ReplaceEmoji(s, e), w)
  {
    var r := ReplaceEmoji(s, e);
    forall q | 0 <= q <= |r| ensures !OccursAt(r, w, q) {
      ReplaceEmojiOccurrence(s, e, w, q);
    }
  }

  /** No occurrence of a word-shaped emoji survives its own replacement: the scanner would
      have matched it where it starts. */
  lemma {:induction false} EmojiNotAt(s: string, e: string, q: int)
    requires IsWord(e)
    ensures !OccursAt(ReplaceEmoji(s, e), e, q)
    decreases |s|
  {
    match EmojiAt(s, e)
    case Some(n) =>
      SpaceStep(ReplaceEmoji(s[n..], e), e, q);
      EmojiNotAt(s[n..], e, q - 1);
    case None =>
      if |s| > 0 {
        var t := ReplaceEmoji(s[1..], e);
        CopyStep(s[0], t, e, q);
        EmojiNotAt(s[1..], e, q - 1);
        ReplaceEmojiPrefix(s[1..], e, e[1..]);
        JoinStart(s, e);
      }
  }

  /** Replacing a word-shaped emoji leaves no occurrence of it. */
  lemma ReplaceEmojiRemoves(s: string, e: string)
    requires IsWord(e)
    ensures !Contains(ReplaceEmoji(s, e), e)
  {
    var r := ReplaceEmoji(s, e);
    forall q | 0 <= q <= |r| ensures !OccursAt(r, e, q) {
      EmojiNotAt(s, e, q);
    }
  }

  // ---------------------------------------------------------------------------------------
  // All configured emojis, in order

  /** One pass of the emoji loop: the replacement runs only when the title contains it. */
  function EmojiStep(title: string, e: string): string {
    if Contains(title, e) then ReplaceEmoji(title, e) else title
  }

  /** The emoji loop over `emojis`, first to last. */
  function RemoveEmojis(title: string, emojis: seq<string>): string
    decreases |emojis|
  {
    if |emojis| == 0 then title else RemoveEmojis(EmojiStep(title, emojis[0]), emojis[1..])
  }

  lemma {:induction false} RemoveEmojisKeepsAbsent(title: string, emojis: seq<string>, w: string)
    requires IsWord(w) && !Contains(title, w)
    ensures !Contains(RemoveEmojis(title, emojis), w)
    decreases |emojis|
  {
    if |emojis| > 0 {
      if Contains(title, emojis[0]) {
        ReplaceEmojiKeepsAbsent(title, emojis[0], w);
      }
      RemoveEmojisKeepsAbsent(EmojiStep(title, emojis[0]), emojis[1..], w);
    }
  }

  /** After the loop no word-shaped configured emoji occurs in the title. */
  lemma {:induction false} RemoveEmojisRemovesAll(title: string, emojis: seq<string>, e: string)
    requires e in emojis && IsWord(e)
    ensures !Contains(RemoveEmojis(title, emojis), e)
    decreases |emojis|
  {
    var t := EmojiStep(title, emojis[0]);
    if emojis[0] == e {
      if Contains(title, e) {
        ReplaceEmojiRemoves(title, e);
      }
      RemoveEmojisKeepsAbsent(t, emojis[1..], e);
    } else {
      assert e in emojis[1..];
      RemoveEmojisRemovesAll(t, emojis[1..], e);
    }
  }

  // ---------------------------------------------------------------------------------------
  // /\s+/g  ->  ' '

  /** Every run of whitespace becomes one space. */
  function CollapseWs(s: string): (r: string)
    decreases |s|
  {
    if |s| == 0 then []
    else if IsWs(s[0]) then " " + CollapseWs(s[LeadWs(s)..])
    else [s[0]] + CollapseWs(s[1..])
  }

  /** No two whitespace characters are adjacent. */
  predicate NoDoubleWs(s: string) {
    forall i :: 0 <= i < |s| - 1 ==> !(IsWs(s[i]) && IsWs(s[i + 1]))
  }

  lemma {:induction false} CollapseWsNoDouble(s: string)
    ensures NoDoubleWs(CollapseWs(s))
    ensures |s| > 0 && !IsWs(s[0]) ==> |CollapseWs(s)| > 0 && CollapseWs(s)[0] == s[0]
    decreases |s|
  {
    if |s| > 0 {
      var r := CollapseWs(s);
      if IsWs(s[0]) {
        var t := s[LeadWs(s)..];
        CollapseWsNoDouble(t);
        assert r == " " + CollapseWs(t);
        assert |t| > 0 ==> !IsWs(t[0]);
        forall i | 0 <= i < |r| - 1 ensures !(IsWs(r[i]) && IsWs(r[i + 1])) {
          if i > 0 { assert r[i] == CollapseWs(t)[i - 1] && r[i + 1] == CollapseWs(t)[i]; }
        }
      } else {
        var t := s[1..];
        CollapseWsNoDouble(t);
        assert r == [s[0]] + CollapseWs(t);
        forall i | 0 <= i < |r| - 1 ensures !(IsWs(r[i]) && IsWs(r[i + 1])) {
          if i > 0 { assert r[i] == CollapseWs(t)[i - 1] && r[i + 1] == CollapseWs(t)[i]; }
        }
      }
    }
  }

  lemma {:induction false} CollapseWsPrefix(s: string, w: string)
    ensures NoWs(w) && StartsWith(CollapseWs(s), w) ==> StartsWith(s, w)
    decreases |s|
  {
    if |s| > 0 && IsWs(s[0]) {
      assert CollapseWs(s)[0] == ' ';
    } else if |w| > 0 && |s| > 0 {
      var t := CollapseWs(s[1..]);
      CopyStep(s[0], t, w, 0);
      CollapseWsPrefix(s[1..], w[1..]);
      JoinStart(s, w);
    }
  }

  /** A word in the collapsed text occurs in the original. */
  lemma {:induction false} CollapseWsOccurrence(s: string, w: string, q: int)
    requires IsWord(w)
    ensures OccursAt(CollapseWs(s), w, q) ==> Contains(s, w)
    decreases |s|
  {
    if |s| > 0 {
      if IsWs(s[0]) {
        var n := LeadWs(s);
        SpaceStep(CollapseWs(s[n..]), w, q);
        CollapseWsOccurrence(s[n..], w, q - 1);
        ContainsOfSuffix(s, n, w);
      } else {
        var t := CollapseWs(s[1..]);
        CopyStep(s[0], t, w, q);
        CollapseWsOccurrence(s[1..], w, q - 1);
        ContainsOfSuffix(s, 1, w);
        CollapseWsPrefix(s[1..], w[1..]);
        JoinStart(s, w);
      }
    }
  }

  // ---------------------------------------------------------------------------------------
  // The whole cleanup

  /** The title a card gets in a lane without a status. */
  function CleanTitle(title: string, emojis: seq<string>): string {
    Trim(CollapseWs(RemoveEmojis(StripStamps(title), emojis)))
  }

  /** Trimming keeps both properties, since it keeps a slice. */
  lemma TrimKeepsNoDouble(c: string)
    requires NoDoubleWs(c)
    ensures NoDoubleWs(Trim(c))
  {
    TrimIsSlice(c);
    var r, a := Trim(c), LeadWs(c);
    forall i | 0 <= i < |r| - 1 ensures !(IsWs(r[i]) && IsWs(r[i + 1])) {
      assert r[i] == c[a + i] && r[i + 1] == c[a + i + 1];
    }
  }

  lemma TrimKeepsAbsent(c: string, e: string)
    requires !Contains(c, e)
    ensures !Contains(Trim(c), e)
  {
    TrimIsSlice(c);
    if Contains(Trim(c), e) {
      ContainsOfSlice(c, LeadWs(c), LeadWs(c) + |Trim(c)|, e);
    }
  }

  /** The cleaned title has no whitespace at either end, no two adjacent whitespace
      characters, and none of the configured emojis that are words. */
  lemma CleanTitleProperties(title: string, emojis: seq<string>)
    ensures NoEdgeWs(CleanTitle(title, emojis))
    ensures NoDoubleWs(CleanTitle(title, emojis))
    ensures forall e :: e in emojis && IsWord(e) ==> !Contains(CleanTitle(title, emojis), e)
  {
    var removed := RemoveEmojis(StripStamps(title), emojis);
    var c := CollapseWs(removed);
    CollapseWsNoDouble(removed);
    TrimKeepsNoDouble(c);
    forall e | e in emojis && IsWord(e) ensures !Contains(Trim(c), e) {
      RemoveEmojisRemovesAll(StripStamps(title), emojis, e);
      forall q | 0 <= q <= |c| ensures !OccursAt(c, e, q) {
        CollapseWsOccurrence(removed, e, q);
      }
      TrimKeepsAbsent(c, e);
    }
  }
}
