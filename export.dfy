/**
 * The configuration surface of the newest snapshot: the ordering and
 * section-format choices, the builder setters and the defaults.
 */
module Export {

  /** The ordering directive every item comment may carry. */
  const RHAI_ITEM_INDEX_PATTERN: string := "# rhai-autodocs:index:"

  /** Where the generated documentation is hosted. */
  datatype MarkdownProcessor = MdBook | Docusaurus

  /** How documentation items are ordered in a module. */
  datatype ItemsOrder = Alphabetical | ByIndex

  /** How `#` sections of a comment are displayed. */
  datatype SectionFormat = Rust | Tabs

  datatype Options = Options(
    itemsOrder: ItemsOrder,
    sectionsFormat: SectionFormat,
    includeStandardPackages: bool)

  /** `options()`: every field at its derived default. */
  function DefaultOptions(): (r: Options)
    ensures r.itemsOrder == Alphabetical
    ensures r.sectionsFormat == Rust
    ensures !r.includeStandardPackages
  {
    Options(Alphabetical, Rust, false)
  }

  function IncludeStandardPackages(o: Options, enabled: bool): (r: Options)
    ensures r.includeStandardPackages == enabled
    ensures r.itemsOrder == o.itemsOrder && r.sectionsFormat == o.sectionsFormat
  {
    o.(includeStandardPackages := enabled)
  }

  function OrderItemsWith(o: Options, order: ItemsOrder): (r: Options)
    ensures r.itemsOrder == order
    ensures r.sectionsFormat == o.sectionsFormat && r.includeStandardPackages == o.includeStandardPackages
  {
    o.(itemsOrder := order)
  }

  function FormatSectionsWith(o: Options, format: SectionFormat): (r: Options)
    ensures r.sectionsFormat == format
    ensures r.itemsOrder == o.itemsOrder && r.includeStandardPackages == o.includeStandardPackages
  {
    o.(sectionsFormat := format)
  }

  /** Setters touch disjoint fields, so the order of a builder chain does not matter. */
  lemma SettersCommute(o: Options, enabled: bool, order: ItemsOrder, format: SectionFormat)
    ensures IncludeStandardPackages(OrderItemsWith(o, order), enabled)
         == OrderItemsWith(IncludeStandardPackages(o, enabled), order)
    ensures OrderItemsWith(FormatSectionsWith(o, format), order)
         == FormatSectionsWith(OrderItemsWith(o, order), format)
    ensures FormatSectionsWith(IncludeStandardPackages(o, enabled), format)
         == IncludeStandardPackages(FormatSectionsWith(o, format), enabled)
  {
  }
}
