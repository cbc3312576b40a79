/** maybeCompleteForMove (src/components/helpers.ts:36-216): how a card's checkbox and its
    " <emoji> YYYY-MM-DD" status stamps change when the card is moved from a source lane to
    a destination lane. A lane is in one of three regimes: no status, completion (the lane
    flag, or a status emoji marked as completion) or a named status. The Tasks plugin's
    `toggleTask` and the state manager's `getNewItem` are parameters. */
module MoveCompletion {
  import opened KanbanTypes
  import opened Text
  import opened TitleCleanup

  /** What `toggleTask` returns: nothing, or the rewritten lines of the task, their checkbox
      characters and the index of the line that stands for the moved card. */
  datatype ToggleResult = NotApplicable | Delegated(lines: seq<string>, chars: seq<char>, index: int)

  /** Everything maybeCompleteForMove reads besides the card: the source and destination lane
      data (a missing parent lane reads as the default lane data), the destination's
      status-emoji setting, Tasks' done and pre-done characters, today's date formatted
      YYYY-MM-DD, and the two collaborators. */
  datatype MoveContext = MoveContext(
    source: LaneData,
    destination: LaneData,
    statusEmojis: seq<StatusEmoji>,
    done: char,
    preDone: char,
    now: string,
    toggle: Item -> ToggleResult,
    newItem: (string, Option<char>) -> Item)

  datatype MoveResult = MoveResult(next: Item, replacement: Option<Item>)

  // ---------------------------------------------------------------------------------------
  // Regimes

  /** `statusEmojis.find(s => s.id === id)` for a truthy id, and null otherwise. */
  function FindStatusEmoji(emojis: seq<StatusEmoji>, id: Option<string>): (r: Option<StatusEmoji>)
    ensures r.Some? ==> Truthy(id) && r.value in emojis && r.value.id == id.value
    ensures r.Some? ==> exists j :: 0 <= j < |emojis| && emojis[j] == r.value
                               && (forall i :: 0 <= i < j ==> emojis[i].id != id.value)
    ensures r.None? ==> !Truthy(id) || forall e :: e in emojis ==> e.id != id.value
  {
    if !Truthy(id) then None
    else match FirstWithId(emojis, id.value)
      case Some(j) => Some(emojis[j])
      case None => None
  }

  function FirstWithId(emojis: seq<StatusEmoji>, id: string): (r: Option<nat>)
    ensures r.Some? ==> (r.value < |emojis| && emojis[r.value].id == id
                         && forall i :: 0 <= i < r.value ==> emojis[i].id != id)
    ensures r.None? ==> forall e :: e in emojis ==> e.id != id
  {
    if |emojis| == 0 then None
    else if emojis[0].id == id then Some(0)
    else match FirstWithId(emojis[1..], id)
      case Some(j) => Some(j + 1)
      case None => None
  }

  function OldStatus(ctx: MoveContext): Option<StatusEmoji> {
    FindStatusEmoji(ctx.statusEmojis, ctx.source.shouldApplyStatus)
  }

  function NewStatus(ctx: MoveContext): Option<StatusEmoji> {
    FindStatusEmoji(ctx.statusEmojis, ctx.destination.shouldApplyStatus)
  }

  predicate IsCompletionLane(shouldMarkItemsComplete: bool, status: Option<StatusEmoji>) {
    shouldMarkItemsComplete || (status.Some? && status.value.isCompletion)
  }

  predicate OriginCompletes(ctx: MoveContext) {
    IsCompletionLane(ctx.source.shouldMarkItemsComplete, OldStatus(ctx))
  }

  predicate DestCompletes(ctx: MoveContext) {
    IsCompletionLane(ctx.destination.shouldMarkItemsComplete, NewStatus(ctx))
  }

  predicate IsCurrentlyComplete(ctx: MoveContext, item: Item) {
    item.data.checked && item.data.checkChar == ctx.done
  }

  /** Leaving a completion lane for one that is not, with the card done. */
  predicate Leaving(ctx: MoveContext, item: Item) {
    OriginCompletes(ctx) && !DestCompletes(ctx) && IsCurrentlyComplete(ctx, item)
  }

  /** Entering a completion lane from one that is not, with the card not done. */
  predicate Entering(ctx: MoveContext, item: Item) {
    !OriginCompletes(ctx) && DestCompletes(ctx) && !IsCurrentlyComplete(ctx, item)
  }

  // ---------------------------------------------------------------------------------------
  // Step 1: the checkbox

  /** The working item, the replacement built from Tasks' lines, and whether Tasks handled the
      update. */
  datatype CheckboxOutcome = CheckboxOutcome(current: Item, replacement: Option<Item>, handled: bool)

  /** `checkChars[i]`, which is undefined past the end. */
  function CharAt(chars: seq<char>, i: int): Option<char> {
    if 0 <= i < |chars| then Some(chars[i]) else None
  }

  function Built(newItem: (string, Option<char>) -> Item, lines: seq<string>, chars: seq<char>, i: nat): Item
    requires i < |lines|
  {
    newItem(lines[i], CharAt(chars, i))
  }

  /** The `itemStrings.forEach` over the first `n` lines: the line at `index` becomes the
      working item, any other line becomes the replacement. */
  function DelegateUpTo(newItem: (string, Option<char>) -> Item, item: Item, lines: seq<string>,
                        chars: seq<char>, index: int, n: nat): CheckboxOutcome
    requires n <= |lines|
  {
    if n == 0 then CheckboxOutcome(item, None, true)
    else
      var c := DelegateUpTo(newItem, item, lines, chars, index, n - 1);
      if n - 1 == index then c.(current := Built(newItem, lines, chars, n - 1))
      else c.(replacement := Some(Built(newItem, lines, chars, n - 1)))
  }

  /** The largest index below `n` other than `index`. */
  function LastOther(n: nat, index: int): (r: Option<nat>)
    ensures r.Some? ==> r.value < n && r.value != index
    ensures r.Some? ==> r.value == n - 1 || (r.value == n - 2 && index == n - 1)
    ensures r.None? <==> n == 0 || (n == 1 && index == 0)
  {
    if n == 0 then None
    else if n - 1 != index then Some(n - 1)
    else LastOther(n - 1, index)
  }

  /** After the forEach: the card is rebuilt from the line at `index` (and kept when `index`
      names no line), and the replacement is built from the last other line, if any. */
  lemma {:induction false} DelegateClosedForm(newItem: (string, Option<char>) -> Item, item: Item,
                                               lines: seq<string>, chars: seq<char>, index: int, n: nat)
    requires n <= |lines|
    ensures var c := DelegateUpTo(newItem, item, lines, chars, index, n);
      && c.handled
      && c.current == (if 0 <= index < n then Built(newItem, lines, chars, index) else item)
      && c.replacement == (match LastOther(n, index)
                           case Some(j) => Some(Built(newItem, lines, chars, j))
                           case None => None)
  {
    if n > 0 {
      DelegateClosedForm(newItem, item, lines, chars, index, n - 1);
    }
  }

  /** The item Tasks is asked to toggle: the card with the given checkbox character. */
  function WithCheckChar(item: Item, c: char): Item {
    item.(data := item.data.(checkChar := c))
  }

  /** Step 1 of maybeCompleteForMove. */
  function CheckboxStep(ctx: MoveContext, item: Item): CheckboxOutcome {
    if Leaving(ctx, item) then
      match ctx.toggle(WithCheckChar(item, ctx.done))
      case Delegated(lines, chars, index) => DelegateUpTo(ctx.newItem, item, lines, chars, index, |lines|)
      case NotApplicable => CheckboxOutcome(item.(data := item.data.(checked := false, checkChar := ' ')), None, false)
    else if Entering(ctx, item) then
      match ctx.toggle(WithCheckChar(item, ctx.preDone))
      case Delegated(lines, chars, index) => DelegateUpTo(ctx.newItem, item, lines, chars, index, |lines|)
      case NotApplicable => CheckboxOutcome(item.(data := item.data.(checked := true, checkChar := ctx.done)), None, false)
    else CheckboxOutcome(item, None, false)
  }

  // ---------------------------------------------------------------------------------------
  // Step 2: the title

  /** The emoji of every configured status, in order. */
  function EmojisOf(emojis: seq<StatusEmoji>): (r: seq<string>)
    ensures |r| == |emojis| && forall i :: 0 <= i < |r| ==> r[i] == emojis[i].emoji
  {
    seq(|emojis|, i requires 0 <= i < |emojis| => emojis[i].emoji)
  }

  /** The condition of the cleaning branch, as written (three alternatives). */
  predicate CleanCondition(ctx: MoveContext) {
    var oldE, newE, dest := OldStatus(ctx), NewStatus(ctx), DestCompletes(ctx);
    || (oldE.Some? && newE.None? && !dest)
    || (OriginCompletes(ctx) && oldE.Some? && oldE.value.isCompletion && newE.None? && !dest)
    || (newE.None? && !dest)
  }

  /** The stamp a named status lane appends. */
  function Stamped(title: string, emoji: string, now: string): string {
    title + " " + emoji + " " + now
  }

  /** Step 2 of maybeCompleteForMove: the final title. */
  function TitleStep(ctx: MoveContext, title: string): string {
    if CleanCondition(ctx) then CleanTitle(title, EmojisOf(ctx.statusEmojis))
    else if NewStatus(ctx).Some? && !NewStatus(ctx).value.isCompletion then
      var emoji := NewStatus(ctx).value.emoji;
      if !Contains(title, emoji) then Stamped(title, emoji, ctx.now) else title
    else title
  }

  // ---------------------------------------------------------------------------------------
  // Step 3: the commit

  /** Step 3: when the title or (without Tasks) the checkbox changed, both title fields are set
      to the final title; the checkbox fields are written back with the values they have. */
  function Commit(item: Item, c: CheckboxOutcome, finalTitle: string): (r: Item)
    ensures r.data.titleRaw == finalTitle
    ensures r.id == c.current.id
    ensures r.data.title == finalTitle || r == c.current
    ensures r.data.checked == c.current.data.checked && r.data.checkChar == c.current.data.checkChar
    ensures r.data.titleSearch == c.current.data.titleSearch && r.data.blockId == c.current.data.blockId
    ensures finalTitle == c.current.data.titleRaw
      && (c.handled || (item.data.checked == c.current.data.checked && item.data.checkChar == c.current.data.checkChar))
      ==> r == c.current
  {
    var cur := c.current;
    if finalTitle != cur.data.titleRaw
       || (item.data.checked != cur.data.checked && !c.handled)
       || (item.data.checkChar != cur.data.checkChar && !c.handled)
    then cur.(data := cur.data.(title := finalTitle, titleRaw := finalTitle, checked := cur.data.checked,
                                checkChar := cur.data.checkChar))
    else cur
  }

  /** maybeCompleteForMove as a function of its inputs. */
  function MoveSpec(ctx: MoveContext, item: Item): MoveResult {
    var c := CheckboxStep(ctx, item);
    MoveResult(Commit(item, c, TitleStep(ctx, c.current.data.titleRaw)), c.replacement)
  }

  // ---------------------------------------------------------------------------------------
  // The procedure

  /** The `itemStrings.forEach` of a delegated toggle. */
  method ApplyToggleUpdates(newItem: (string, Option<char>) -> Item, item: Item, lines: seq<string>,
                            chars: seq<char>, index: int)
    returns (current: Item, replacement: Option<Item>)
    ensures CheckboxOutcome(current, replacement, true) == DelegateUpTo(newItem, item, lines, chars, index, |lines|)
  {
    current, replacement := item, None;
    var i := 0;
    while i < |lines|
      invariant 0 <= i <= |lines|
      invariant CheckboxOutcome(current, replacement, true) == DelegateUpTo(newItem, item, lines, chars, index, i)
    {
      var built := newItem(lines[i], CharAt(chars, i));
      if i == index {
        current := built;
      } else {
        replacement := Some(built);
      }
      i := i + 1;
    }
  }

  /** The emoji loop of the cleaning branch. */
  method RemoveEmojiLoop(title: string, allEmojis: seq<string>) returns (finalTitle: string)
    ensures finalTitle == RemoveEmojis(title, allEmojis)
  {
    finalTitle := title;
    var i := 0;
    while i < |allEmojis|
      invariant 0 <= i <= |allEmojis|
      invariant RemoveEmojis(finalTitle, allEmojis[i..]) == RemoveEmojis(title, allEmojis)
    {
      var emoji := allEmojis[i];
      assert allEmojis[i..][1..] == allEmojis[i + 1..];
      if Contains(finalTitle, emoji) {
        finalTitle := ReplaceEmoji(finalTitle, emoji);
      }
      i := i + 1;
    }
  }

  method MaybeCompleteForMove(ctx: MoveContext, item: Item) returns (r: MoveResult)
    ensures r == MoveSpec(ctx, item)
  {
    // 1. The checkbox.
    var currentItem, replacementFromTasks, tasksHandledUpdate := UpdateCheckbox(ctx, item);
    // 2. The stamps in the title.
    var finalTitle := UpdateTitle(ctx, currentItem.data.titleRaw);
    // 3. The commit.
    if finalTitle != currentItem.data.titleRaw
       || (item.data.checked != currentItem.data.checked && !tasksHandledUpdate)
       || (item.data.checkChar != currentItem.data.checkChar && !tasksHandledUpdate)
    {
      currentItem := currentItem.(data := currentItem.data.(title := finalTitle, titleRaw := finalTitle));
    }
    r := MoveResult(currentItem, replacementFromTasks);
  }

  /** Step 1 of maybeCompleteForMove: the checkbox. */
  method UpdateCheckbox(ctx: MoveContext, item: Item)
    returns (currentItem: Item, replacementFromTasks: Option<Item>, tasksHandledUpdate: bool)
    ensures CheckboxOutcome(currentItem, replacementFromTasks, tasksHandledUpdate) == CheckboxStep(ctx, item)
  {
    var statusEmojis := ctx.statusEmojis;
    var oldStatusEmoji := FindStatusEmoji(statusEmojis, ctx.source.shouldApplyStatus);
    var newStatusEmoji := FindStatusEmoji(statusEmojis, ctx.destination.shouldApplyStatus);

    currentItem := item;
    var isCurrentlyComplete := currentItem.data.checked && currentItem.data.checkChar == ctx.done;
    var isOriginCompletionLane := ctx.source.shouldMarkItemsComplete
      || (oldStatusEmoji.Some? && oldStatusEmoji.value.isCompletion);
    var isDestCompletionLane := ctx.destination.shouldMarkItemsComplete
      || (newStatusEmoji.Some? && newStatusEmoji.value.isCompletion);

    tasksHandledUpdate := false;
    replacementFromTasks := None;
    if isOriginCompletionLane && !isDestCompletionLane && isCurrentlyComplete {
      var tempItem := currentItem.(data := currentItem.data.(checkChar := ctx.done));
      var updates := ctx.toggle(tempItem);
      if updates.Delegated? {
        currentItem, replacementFromTasks := ApplyToggleUpdates(ctx.newItem, currentItem, updates.lines, updates.chars, updates.index);
        tasksHandledUpdate := true;
      } else {
        currentItem := currentItem.(data := currentItem.data.(checked := false, checkChar := ' '));
      }
    } else if !isOriginCompletionLane && isDestCompletionLane && !isCurrentlyComplete {
      var tempItem := currentItem.(data := currentItem.data.(checkChar := ctx.preDone));
      var updates := ctx.toggle(tempItem);
      if updates.Delegated? {
        currentItem, replacementFromTasks := ApplyToggleUpdates(ctx.newItem, currentItem, updates.lines, updates.chars, updates.index);
        tasksHandledUpdate := true;
      } else {
        currentItem := currentItem.(data := currentItem.data.(checked := true, checkChar := ctx.done));
      }
    }
  }

  /** Step 2 of maybeCompleteForMove: the stamps in the title. */
  method UpdateTitle(ctx: MoveContext, titleRaw: string) returns (finalTitle: string)
    ensures finalTitle == TitleStep(ctx, titleRaw)
  {
    var statusEmojis := ctx.statusEmojis;
    var oldStatusEmoji := FindStatusEmoji(statusEmojis, ctx.source.shouldApplyStatus);
    var newStatusEmoji := FindStatusEmoji(statusEmojis, ctx.destination.shouldApplyStatus);
    var isOriginCompletionLane := ctx.source.shouldMarkItemsComplete
      || (oldStatusEmoji.Some? && oldStatusEmoji.value.isCompletion);
    var isDestCompletionLane := ctx.destination.shouldMarkItemsComplete
      || (newStatusEmoji.Some? && newStatusEmoji.value.isCompletion);

    finalTitle := titleRaw;
    var allEmojis := EmojisOf(statusEmojis);
    if (oldStatusEmoji.Some? && newStatusEmoji.None? && !isDestCompletionLane)
       || (isOriginCompletionLane && oldStatusEmoji.Some? && oldStatusEmoji.value.isCompletion
           && newStatusEmoji.None? && !isDestCompletionLane)
       || (newStatusEmoji.None? && !isDestCompletionLane)
    {
      finalTitle := StripStamps(finalTitle);
      finalTitle := RemoveEmojiLoop(finalTitle, allEmojis);
      finalTitle := Trim(CollapseWs(finalTitle));
    } else if newStatusEmoji.Some? && !newStatusEmoji.value.isCompletion {
      if !Contains(finalTitle, newStatusEmoji.value.emoji) {
        finalTitle := finalTitle + " " + newStatusEmoji.value.emoji + " " + ctx.now;
      }
    }
  }

  // ---------------------------------------------------------------------------------------
  // Properties

  /** The three alternatives of the cleaning condition amount to its last one: the destination
      has no resolved status emoji and is not a completion lane. */
  lemma CleanConditionIsNoStatus(ctx: MoveContext)
    ensures CleanCondition(ctx) <==> NewStatus(ctx).None? && !DestCompletes(ctx)
  {
  }

  /** A status id that names no configured emoji counts as no status. */
  lemma UnknownStatusIsNoStatus(ctx: MoveContext)
    requires Truthy(ctx.destination.shouldApplyStatus)
    requires forall e :: e in ctx.statusEmojis ==> e.id != ctx.destination.shouldApplyStatus.value
    ensures NewStatus(ctx).None?
  {
  }

  /** Without Tasks, leaving a completion lane unchecks the card. */
  lemma FallbackLeaving(ctx: MoveContext, item: Item)
    requires Leaving(ctx, item) && ctx.toggle(WithCheckChar(item, ctx.done)) == NotApplicable
    ensures var r := MoveSpec(ctx, item);
      !r.next.data.checked && r.next.data.checkChar == ' ' && r.replacement.None? && r.next.id == item.id
  {
  }

  /** Without Tasks, entering a completion lane checks the card with the done character. */
  lemma FallbackEntering(ctx: MoveContext, item: Item)
    requires Entering(ctx, item) && ctx.toggle(WithCheckChar(item, ctx.preDone)) == NotApplicable
    ensures var r := MoveSpec(ctx, item);
      r.next.data.checked && r.next.data.checkChar == ctx.done && r.replacement.None? && r.next.id == item.id
  {
  }

  /** In every other combination the checkbox is kept and there is no replacement. */
  lemma CheckboxKept(ctx: MoveContext, item: Item)
    requires !Leaving(ctx, item) && !Entering(ctx, item)
    ensures var r := MoveSpec(ctx, item);
      r.next.data.checked == item.data.checked && r.next.data.checkChar == item.data.checkChar
      && r.replacement.None? && r.next.id == item.id
  {
  }

  /** When Tasks rewrites the task, the card is the one built from the line at the returned
      index, with the checkbox Tasks gave it, and the replacement is built from the last other
      line. */
  lemma Delegation(ctx: MoveContext, item: Item, lines: seq<string>, chars: seq<char>, index: int)
    requires || (Leaving(ctx, item) && ctx.toggle(WithCheckChar(item, ctx.done)) == Delegated(lines, chars, index))
             || (Entering(ctx, item) && ctx.toggle(WithCheckChar(item, ctx.preDone)) == Delegated(lines, chars, index))
    ensures var r := MoveSpec(ctx, item);
      var base := if 0 <= index < |lines| then Built(ctx.newItem, lines, chars, index) else item;
      && r.next.id == base.id
      && r.next.data.checked == base.data.checked && r.next.data.checkChar == base.data.checkChar
      && r.replacement == (match LastOther(|lines|, index)
                           case Some(j) => Some(Built(ctx.newItem, lines, chars, j))
                           case None => None)
  {
    DelegateClosedForm(ctx.newItem, item, lines, chars, index, |lines|);
  }

  /** Moving to a lane without a status leaves a title without edge or doubled whitespace and
      without any configured emoji that is a word. */
  lemma NoStatusDestination(ctx: MoveContext, item: Item)
    requires NewStatus(ctx).None? && !DestCompletes(ctx)
    ensures var t := MoveSpec(ctx, item).next.data.titleRaw;
      && t == CleanTitle(CheckboxStep(ctx, item).current.data.titleRaw, EmojisOf(ctx.statusEmojis))
      && NoEdgeWs(t) && NoDoubleWs(t)
      && forall e :: e in EmojisOf(ctx.statusEmojis) && IsWord(e) ==> !Contains(t, e)
  {
    CleanTitleProperties(CheckboxStep(ctx, item).current.data.titleRaw, EmojisOf(ctx.statusEmojis));
  }

  /** Moving to a named non-completion status lane appends " <emoji> <today>" exactly when the
      title does not already contain the emoji; afterwards it always does. */
  lemma StatusDestination(ctx: MoveContext, item: Item)
    requires NewStatus(ctx).Some? && !NewStatus(ctx).value.isCompletion
    ensures var t := CheckboxStep(ctx, item).current.data.titleRaw;
      var emoji := NewStatus(ctx).value.emoji;
      var final := MoveSpec(ctx, item).next.data.titleRaw;
      && final == (if Contains(t, emoji) then t else Stamped(t, emoji, ctx.now))
      && Contains(final, emoji)
  {
    var t := CheckboxStep(ctx, item).current.data.titleRaw;
    var emoji := NewStatus(ctx).value.emoji;
    if !Contains(t, emoji) {
      var s := Stamped(t, emoji, ctx.now);
      assert s[|t| + 1..|t| + 1 + |emoji|] == emoji;
      assert OccursAt(s, emoji, |t| + 1);
    }
  }

  /** Without Tasks, repeating a move into a named non-completion status lane changes nothing:
      the stamp is already there and the checkbox already fits. */
  lemma StatusDestinationIdempotent(ctx: MoveContext, item: Item)
    requires NewStatus(ctx).Some? && !NewStatus(ctx).value.isCompletion
    requires forall it: Item :: ctx.toggle(it) == NotApplicable
    ensures var once := MoveSpec(ctx, item).next;
      MoveSpec(ctx, once).next == once
  {
    var once := MoveSpec(ctx, item).next;
    StatusDestination(ctx, item);
    assert ctx.toggle(WithCheckChar(item, ctx.done)) == NotApplicable;
    assert ctx.toggle(WithCheckChar(item, ctx.preDone)) == NotApplicable;
    assert !Leaving(ctx, once) && !Entering(ctx, once);
  }

  /** A completion destination without a named non-completion status keeps the title the
      checkbox step left. */
  lemma CompletionDestinationKeepsTitle(ctx: MoveContext, item: Item)
    requires DestCompletes(ctx)
    requires !(NewStatus(ctx).Some? && !NewStatus(ctx).value.isCompletion)
    ensures MoveSpec(ctx, item).next.data.titleRaw == CheckboxStep(ctx, item).current.data.titleRaw
  {
  }

  /** When neither the title nor the checkbox changes, the card is returned as it is. */
  lemma UnchangedCardReturned(ctx: MoveContext, item: Item)
    requires !Leaving(ctx, item) && !Entering(ctx, item)
    requires TitleStep(ctx, item.data.titleRaw) == item.data.titleRaw
    ensures MoveSpec(ctx, item) == MoveResult(item, None)
  {
  }

  /** Whatever the checkbox step did, when the title step leaves the title as that step left
      it and the checkbox was either handled by Tasks or left as it was, the card after the
      checkbox step is returned as it is. */
  lemma CheckboxResultReturned(ctx: MoveContext, item: Item)
    ensures var c := CheckboxStep(ctx, item);
      TitleStep(ctx, c.current.data.titleRaw) == c.current.data.titleRaw
      && (c.handled || (item.data.checked == c.current.data.checked && item.data.checkChar == c.current.data.checkChar))
      ==> MoveSpec(ctx, item) == MoveResult(c.current, c.replacement)
  {
  }
}
