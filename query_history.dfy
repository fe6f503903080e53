/** The history and saved-query lists (src/components/QueryHistory.tsx): the
    title each entry shows and the message for an empty list. */
module QueryHistory {
  import opened Wrappers

  /** `truncateQuery`'s default length. */
  const DefaultMaxLength: int := 40

  /** `query.substring(0, n)`: a negative end counts as 0. */
  function Prefix(query: string, n: int): (p: string)
    ensures |p| == if n < 0 then 0 else if n > |query| then |query| else n
    ensures p == query[..|p|]
  {
    if n < 0 then [] else if n > |query| then query else query[..n]
  }

  /** `truncateQuery`: a query longer than `maxLength` is cut to its first
      `maxLength` characters and marked with "...". */
  function Truncate(query: string, maxLength: int): string {
    if |query| > maxLength then Prefix(query, maxLength) + "..." else query
  }

  /** A query that fits comes back unchanged; a longer one keeps exactly its
      first `maxLength` characters, then "...", and is never longer than
      `maxLength + 3`. */
  lemma TruncateShape(query: string, maxLength: nat)
    ensures |query| <= maxLength ==> Truncate(query, maxLength) == query
    ensures |query| > maxLength ==>
              Truncate(query, maxLength)[..maxLength] == query[..maxLength]
              && Truncate(query, maxLength)[maxLength..] == "..."
    ensures |Truncate(query, maxLength)| <= maxLength + 3
  {
  }

  /** Truncation keeps as much of the start of the query as fits. */
  lemma TruncateKeepsStart(query: string, maxLength: nat)
    ensures var t := Truncate(query, maxLength);
            var kept := if |query| <= maxLength then |query| else maxLength;
            kept <= |t| && t[..kept] == query[..kept]
  {
  }

  /** An entry of either list; `name` is set for saved queries. */
  datatype Item = Item(query: string, timestamp: int, name: Option<string>)

  /** `item.name || truncateQuery(item.query)` */
  function Title(item: Item): (title: string)
    ensures item.name.Some? && item.name.value != "" ==> title == item.name.value
    ensures item.name.None? || item.name.value == "" ==> title == Truncate(item.query, DefaultMaxLength)
  {
    if item.name.Some? && item.name.value != "" then item.name.value
    else Truncate(item.query, DefaultMaxLength)
  }

  /** One row of the list: the title shown, and the query a click selects. */
  datatype Entry = Entry(title: string, selects: string)

  datatype View = EmptyMessage(text: string) | List(entries: seq<Entry>)

  /** What the component renders for its items. */
  function Render(items: seq<Item>): (view: View)
    ensures view == EmptyMessage("No items yet") <==> items == []
    ensures view.List? ==> |view.entries| == |items|
    ensures view.List? ==> forall i :: 0 <= i < |items| ==>
              view.entries[i] == Entry(Title(items[i]), items[i].query)
  {
    if |items| == 0 then EmptyMessage("No items yet")
    else List(seq(|items|, i requires 0 <= i < |items| => Entry(Title(items[i]), items[i].query)))
  }

  /** A title is never longer than a name or 43 characters. */
  lemma TitleLength(item: Item)
    ensures |Title(item)| <= (if item.name.Some? && item.name.value != "" then |item.name.value| else DefaultMaxLength + 3)
  {
    TruncateShape(item.query, DefaultMaxLength);
  }
}
