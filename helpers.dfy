/** The small helpers of src/components/helpers.ts: escaping a string for use inside a
    regular expression, the tag-colour lookup and the metadata-key lookup. */
module ComponentHelpers {
  import opened KanbanTypes

  // ---------------------------------------------------------------------------------------
  // escapeRegExpStr

  /** The characters of the class `[\\^$.*+?()[\]{}|]`: those with a meaning in a pattern. */
  predicate IsRegExpChar(c: char) {
    c == '\\' || c == '^' || c == '$' || c == '.' || c == '*' || c == '+' || c == '?'
    || c == '(' || c == ')' || c == '[' || c == ']' || c == '{' || c == '}' || c == '|'
  }

  predicate HasRegExpChar(s: string) {
    exists i | 0 <= i < |s| :: IsRegExpChar(s[i])
  }

  /** `str.replace(reRegExChar, '\\$&')`: a backslash before every pattern character. */
  function EscapeAll(s: string): (r: string)
    ensures |r| >= |s|
  {
    if |s| == 0 then []
    else if IsRegExpChar(s[0]) then ['\\', s[0]] + EscapeAll(s[1..])
    else [s[0]] + EscapeAll(s[1..])
  }

  /** escapeRegExpStr: the empty string stays empty, a string without pattern characters is
      returned as it is, any other string has its pattern characters escaped. */
  function EscapeRegExpStr(s: string): (r: string)
    ensures s == "" ==> r == ""
    ensures !HasRegExpChar(s) ==> r == s
  {
    if s != "" && HasRegExpChar(s) then EscapeAll(s) else s
  }

  /** The literal text a pattern stands for when it is made only of ordinary characters and
      backslash-escaped pattern characters; `None` for any other pattern. */
  function PatternLiteral(p: string): (r: Option<string>)
    ensures r.Some? ==> |r.value| <= |p|
  {
    if |p| == 0 then Some([])
    else if p[0] == '\\' then
      if |p| >= 2 && IsRegExpChar(p[1]) then
        match PatternLiteral(p[2..])
        case Some(t) => Some([p[1]] + t)
        case None => None
      else None
    else if IsRegExpChar(p[0]) then None
    else
      match PatternLiteral(p[1..])
      case Some(t) => Some([p[0]] + t)
      case None => None
  }

  /** Escaping produces a pattern that stands for exactly the input text: removing the
      inserted backslashes gives the input back. */
  lemma {:induction false} EscapeAllIsLiteral(s: string)
    ensures PatternLiteral(EscapeAll(s)) == Some(s)
  {
    if |s| > 0 {
      EscapeAllIsLiteral(s[1..]);
      var e := EscapeAll(s);
      if IsRegExpChar(s[0]) {
        assert e[2..] == EscapeAll(s[1..]);
      } else {
        assert e[1..] == EscapeAll(s[1..]);
      }
      assert s == [s[0]] + s[1..];
    }
  }

  /** The shortcut for strings without pattern characters changes nothing: escapeRegExpStr
      always escapes every pattern character. */
  lemma {:induction false} EscapeRegExpStrEscapesAll(s: string)
    ensures EscapeRegExpStr(s) == EscapeAll(s)
  {
    if !HasRegExpChar(s) {
      EscapeAllOfPlain(s);
    }
  }

  lemma {:induction false} EscapeAllOfPlain(s: string)
    requires !HasRegExpChar(s)
    ensures EscapeAll(s) == s
  {
    if |s| > 0 {
      assert !IsRegExpChar(s[0]);
      assert !HasRegExpChar(s[1..]) by {
        forall i | 0 <= i < |s[1..]| ensures !IsRegExpChar(s[1..][i]) {
          assert s[1..][i] == s[i + 1];
        }
      }
      EscapeAllOfPlain(s[1..]);
      assert s == [s[0]] + s[1..];
    }
  }

  /** The round trip the emoji-stripping pattern relies on. */
  lemma EscapeRegExpStrRoundTrip(s: string)
    ensures PatternLiteral(EscapeRegExpStr(s)) == Some(s)
  {
    EscapeRegExpStrEscapesAll(s);
    EscapeAllIsLiteral(s);
  }

  /** One backslash is inserted per pattern character and nothing else is added. */
  function CountRegExpChars(s: string): nat {
    if |s| == 0 then 0 else (if IsRegExpChar(s[0]) then 1 else 0) + CountRegExpChars(s[1..])
  }

  lemma {:induction false} EscapeAllLength(s: string)
    ensures |EscapeAll(s)| == |s| + CountRegExpChars(s)
  {
    if |s| > 0 {
      EscapeAllLength(s[1..]);
    }
  }

  // ---------------------------------------------------------------------------------------
  // getTagColorFn

  datatype TagColor = TagColor(tagKey: string, color: string, backgroundColor: string)

  /** The accumulator after the reduce has seen `colors`: entries without a key are skipped
      and a later entry for a key overwrites an earlier one. */
  function TagMapOf(colors: seq<TagColor>): (m: map<string, TagColor>)
    ensures "" !in m
    ensures forall k :: k in m ==> m[k].tagKey == k
  {
    if |colors| == 0 then map[]
    else
      var m := TagMapOf(colors[..|colors| - 1]);
      var c := colors[|colors| - 1];
      if c.tagKey == "" then m else m[c.tagKey := c]
  }

  /** getTagColorFn's reduce, with the accumulator updated in place. */
  method BuildTagMap(colors: seq<TagColor>) returns (m: map<string, TagColor>)
    ensures m == TagMapOf(colors)
  {
    m := map[];
    var i := 0;
    while i < |colors|
      invariant 0 <= i <= |colors|
      invariant m == TagMapOf(colors[..i])
    {
      var current := colors[i];
      assert colors[..i + 1][..i] == colors[..i];
      if current.tagKey != "" {
        m := m[current.tagKey := current];
      }
      i := i + 1;
    }
    assert colors[..|colors|] == colors;
  }

  /** The function getTagColorFn returns: the entry for the tag, or null. */
  function TagColorOf(m: map<string, TagColor>, tag: string): Option<TagColor> {
    if tag in m then Some(m[tag]) else None
  }

  /** Reference reading of the lookup: the last entry whose key is `tag`. */
  function LastWithKey(colors: seq<TagColor>, tag: string): (r: Option<TagColor>)
    ensures r.Some? ==> r.value in colors && r.value.tagKey == tag
    ensures r.None? ==> forall c :: c in colors ==> c.tagKey != tag
  {
    if |colors| == 0 then None
    else if colors[|colors| - 1].tagKey == tag then Some(colors[|colors| - 1])
    else LastWithKey(colors[..|colors| - 1], tag)
  }

  /** The tag-colour lookup returns the last entry for a non-empty tag, null for the empty
      tag and null for a tag without an entry. */
  lemma {:induction false} TagColorIsLastEntry(colors: seq<TagColor>, tag: string)
    ensures TagColorOf(TagMapOf(colors), tag) == if tag == "" then None else LastWithKey(colors, tag)
  {
    if |colors| > 0 {
      TagColorIsLastEntry(colors[..|colors| - 1], tag);
    }
  }

  /** Appending an entry with an empty key leaves every lookup as it was. */
  lemma EmptyKeyIgnored(colors: seq<TagColor>, c: TagColor)
    requires c.tagKey == ""
    ensures TagMapOf(colors + [c]) == TagMapOf(colors)
  {
    assert (colors + [c])[..|colors|] == colors;
  }

  /** An entry appended for a key wins over every earlier entry for that key. */
  lemma LastEntryWins(colors: seq<TagColor>, c: TagColor)
    requires c.tagKey != ""
    ensures TagColorOf(TagMapOf(colors + [c]), c.tagKey) == Some(c)
  {
    assert (colors + [c])[..|colors|] == colors;
  }

  // ---------------------------------------------------------------------------------------
  // parseMetadataWithOptions

  /** A configured metadata key and how it is shown. `labelText` is the `label` field
      (`label` is a reserved word in Dafny). */
  datatype DataKey = DataKey(metadataKey: string, labelText: string, shouldHideLabel: bool, containsMarkdown: bool)

  /** An inline `key:: value` field of a card. */
  datatype InlineField<V> = InlineField(key: string, value: V)

  /** A metadata key together with its value. */
  datatype PageData<V> = PageData(key: DataKey, value: V)

  /** `metadataKeys.find(opts => opts.metadataKey === key)`. */
  function FindDataKey(keys: seq<DataKey>, key: string): (r: Option<nat>)
    ensures r.Some? ==> r.value < |keys| && keys[r.value].metadataKey == key
    ensures r.Some? ==> forall j :: 0 <= j < r.value ==> keys[j].metadataKey != key
    ensures r.None? ==> forall j :: 0 <= j < |keys| ==> keys[j].metadataKey != key
  {
    if |keys| == 0 then None
    else if keys[0].metadataKey == key then Some(0)
    else match FindDataKey(keys[1..], key)
      case Some(j) => Some(j + 1)
      case None => None
  }

  /** parseMetadataWithOptions: the first configured key with the field's name, or a default
      record labelled with the field name, carrying the field's value. */
  function ParseMetadataWithOptions<V>(data: InlineField<V>, keys: seq<DataKey>): (r: PageData<V>)
    ensures r.value == data.value
    ensures r.key.metadataKey == data.key
  {
    match FindDataKey(keys, data.key)
    case Some(j) => PageData(keys[j], data.value)
    case None => PageData(DataKey(data.key, data.key, false, false), data.value)
  }

  /** A configured key is used as it is, and the first configuration for a name wins; without
      one the label is the field name and nothing is hidden or rendered as Markdown. */
  lemma MetadataUsesFirstOption<V>(data: InlineField<V>, keys: seq<DataKey>, j: nat)
    requires j < |keys| && keys[j].metadataKey == data.key
    requires forall i :: 0 <= i < j ==> keys[i].metadataKey != data.key
    ensures ParseMetadataWithOptions(data, keys).key == keys[j]
  {
  }

  lemma MetadataDefault<V>(data: InlineField<V>, keys: seq<DataKey>)
    requires forall d :: d in keys ==> d.metadataKey != data.key
    ensures ParseMetadataWithOptions(data, keys).key == DataKey(data.key, data.key, false, false)
  {
    forall j | 0 <= j < |keys| ensures keys[j].metadataKey != data.key {
      assert keys[j] in keys;
    }
  }
}
