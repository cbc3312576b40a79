/** The board entities the core reads and rewrites: cards (items), lane data and the
    configured status emojis. Optional TypeScript properties become `Option`. */
module KanbanTypes {

  datatype Option<+T> = None | Some(value: T)

  /** The per-card data the core touches. `checkChar` is the literal character inside the
      Markdown checkbox; `titleRaw` keeps structural markers such as a block id, `title` is
      the display text. */
  datatype ItemData = ItemData(
    titleRaw: string,
    title: string,
    titleSearch: string,
    checked: bool,
    checkChar: char,
    blockId: Option<string>)

  datatype Item = Item(id: string, data: ItemData)

  /** Lane settings. `shouldApplyStatus` holds the id of a `StatusEmoji`. */
  datatype LaneData = LaneData(
    title: string,
    maxItems: nat,
    shouldMarkItemsComplete: bool,
    shouldApplyStatus: Option<string>,
    sorted: Option<string>)

  datatype Lane = Lane(id: string, data: LaneData, children: seq<Item>)

  /** A named status a lane can stamp on its cards. */
  datatype StatusEmoji = StatusEmoji(id: string, emoji: string, name: string, isCompletion: bool)

  /** A JavaScript string property is "truthy" when present and non-empty. */
  predicate Truthy(s: Option<string>) {
    s.Some? && s.value != ""
  }
}
