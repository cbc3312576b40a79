/** The status-emoji editor of src/settings/StatusEmojiSettings.tsx: a list of status
    emojis held as component state, edited by appending, deleting and replacing entries,
    where every new list is both handed to `onChange` and stored. */
module StatusEmojiSettings {
  import opened KanbanTypes

  /** The emoji a new entry starts with (U+1F6A7, construction sign). */
  const InProgressEmoji: string := "\U{1F6A7}"

  // ---------------------------------------------------------------------------------------
  // List operations

  /** `update(list, {$splice: [[i, 1]]})`: `Array.prototype.splice(i, 1)`, where a negative
      `i` counts from the end and an `i` past the end removes nothing. */
  function SplicedOut<T>(s: seq<T>, i: int): (r: seq<T>)
    ensures 0 <= i < |s| ==>
      (|r| == |s| - 1
       && (forall j :: 0 <= j < i ==> r[j] == s[j])
       && (forall j :: i <= j < |r| ==> r[j] == s[j + 1]))
    ensures i >= |s| ==> r == s
  {
    var start := if i < 0 then (if |s| + i < 0 then 0 else |s| + i) else (if i > |s| then |s| else i);
    if start < |s| then s[..start] + s[start + 1..] else s
  }

  /** `[...list]` with slot `i` overwritten. */
  function ReplacedAt<T>(s: seq<T>, i: nat, x: T): (r: seq<T>)
    requires i < |s|
    ensures |r| == |s| && r[i] == x
    ensures forall j :: 0 <= j < |s| && j != i ==> r[j] == s[j]
  {
    s[i := x]
  }

  /** Removing the last entry undoes an append. */
  lemma DeleteUndoesAppend<T>(s: seq<T>, x: T)
    ensures SplicedOut(s + [x], |s|) == s
  {
    assert (s + [x])[..|s|] == s;
  }

  /** Deleting at -1 removes the last entry, as `splice(-1, 1)` does. */
  lemma DeleteLastFromEnd<T>(s: seq<T>)
    requires |s| > 0
    ensures SplicedOut(s, -1) == s[..|s| - 1]
  {
  }

  /** Replacing a slot and then deleting it is the same as deleting it. */
  lemma DeleteAfterReplace<T>(s: seq<T>, i: nat, x: T)
    requires i < |s|
    ensures SplicedOut(ReplacedAt(s, i, x), i) == SplicedOut(s, i)
  {
    var r := ReplacedAt(s, i, x);
    assert r[..i] == s[..i];
    assert r[i + 1..] == s[i + 1..];
  }

  /** Replacing a slot with what it holds changes nothing. */
  lemma ReplaceWithSame<T>(s: seq<T>, i: nat)
    requires i < |s|
    ensures ReplacedAt(s, i, s[i]) == s
  {
  }

  // ---------------------------------------------------------------------------------------
  // Field edits made by an entry's inputs

  function WithEmoji(e: StatusEmoji, emoji: string): (r: StatusEmoji)
    ensures r.emoji == emoji && r.id == e.id && r.name == e.name && r.isCompletion == e.isCompletion
  {
    e.(emoji := emoji)
  }

  function WithName(e: StatusEmoji, name: string): (r: StatusEmoji)
    ensures r.name == name && r.id == e.id && r.emoji == e.emoji && r.isCompletion == e.isCompletion
  {
    e.(name := name)
  }

  function ToggledCompletion(e: StatusEmoji): (r: StatusEmoji)
    ensures r.isCompletion != e.isCompletion
    ensures r.id == e.id && r.emoji == e.emoji && r.name == e.name
  {
    e.(isCompletion := !e.isCompletion)
  }

  /** Clicking the completion box twice restores the entry. */
  lemma ToggleTwice(e: StatusEmoji)
    ensures ToggledCompletion(ToggledCompletion(e)) == e
  {
  }

  /** Typing the current text back restores the entry, and the last edit of a field wins. */
  lemma EditsRestore(e: StatusEmoji, a: string, b: string)
    ensures WithEmoji(e, e.emoji) == e && WithName(e, e.name) == e
    ensures WithEmoji(WithEmoji(e, a), b) == WithEmoji(e, b)
    ensures WithName(WithName(e, a), b) == WithName(e, b)
  {
  }

  // ---------------------------------------------------------------------------------------
  // The component state

  class StatusEmojiEditor {
    /** The `emojis` state. */
    var emojis: seq<StatusEmoji>
    /** Every list handed to `onChange`, oldest first. */
    var published: seq<seq<StatusEmoji>>

    /** The stored list is the one last handed to `onChange`. */
    predicate Valid()
      reads this
    {
      |published| > 0 ==> published[|published| - 1] == emojis
    }

    constructor (statusEmojis: seq<StatusEmoji>)
      ensures Valid()
      ensures emojis == statusEmojis && published == []
    {
      emojis := statusEmojis;
      published := [];
    }

    /** updateEmojis: hand the list to `onChange`, then store it. */
    method UpdateEmojis(list: seq<StatusEmoji>)
      modifies this
      ensures Valid()
      ensures emojis == list && published == old(published) + [list]
    {
      published := published + [list];
      emojis := list;
    }

    /** newEmoji, given the generated id and the translated "In Progress" name. */
    method NewEmoji(id: string, name: string)
      modifies this
      ensures Valid()
      ensures emojis == old(emojis) + [StatusEmoji(id, InProgressEmoji, name, false)]
      ensures published == old(published) + [emojis]
    {
      UpdateEmojis(emojis + [StatusEmoji(id, InProgressEmoji, name, false)]);
    }

    /** deleteEmoji. */
    method DeleteEmoji(i: int)
      modifies this
      ensures Valid()
      ensures emojis == SplicedOut(old(emojis), i)
      ensures published == old(published) + [emojis]
    {
      UpdateEmojis(SplicedOut(emojis, i));
    }

    /** updateStatusEmoji(i): copy the list and write slot `i` of the copy. */
    method UpdateStatusEmoji(i: nat, newStatusEmoji: StatusEmoji)
      requires i < |emojis|
      modifies this
      ensures Valid()
      ensures emojis == ReplacedAt(old(emojis), i, newStatusEmoji)
      ensures published == old(published) + [emojis]
    {
      var updatedEmojis := emojis;
      updatedEmojis := updatedEmojis[i := newStatusEmoji];
      UpdateEmojis(updatedEmojis);
    }

    /** The emoji input of entry `i`. */
    method EditEmoji(i: nat, text: string)
      requires i < |emojis|
      modifies this
      ensures Valid()
      ensures emojis == ReplacedAt(old(emojis), i, WithEmoji(old(emojis)[i], text))
      ensures published == old(published) + [emojis]
    {
      UpdateStatusEmoji(i, WithEmoji(emojis[i], text));
    }

    /** The name input of entry `i`. */
    method EditName(i: nat, text: string)
      requires i < |emojis|
      modifies this
      ensures Valid()
      ensures emojis == ReplacedAt(old(emojis), i, WithName(old(emojis)[i], text))
      ensures published == old(published) + [emojis]
    {
      UpdateStatusEmoji(i, WithName(emojis[i], text));
    }

    /** The completion box of entry `i`. */
    method ToggleCompletion(i: nat)
      requires i < |emojis|
      modifies this
      ensures Valid()
      ensures emojis == ReplacedAt(old(emojis), i, ToggledCompletion(old(emojis)[i]))
      ensures published == old(published) + [emojis]
    {
      UpdateStatusEmoji(i, ToggledCompletion(emojis[i]));
    }
  }
}
