/** The schema tree (src/components/DatabaseExplorer.tsx): which tables are
    expanded, and which columns are listed as a result. */
module DatabaseExplorer {
  import opened Wrappers

  datatype Column = Column(name: string, columnType: string)
  datatype Table = Table(name: string, columns: seq<Column>)
  datatype Structure = Structure(name: string, tables: seq<Table>)

  /** `expandedTables`, a plain object: its own entries, set by clicks. */
  type Expanded = map<string, bool>

  /** The properties every plain object inherits from `Object.prototype`:
      each is a function or, for `__proto__`, an object, so it reads as true. */
  const InheritedNames: set<string> := {
    "constructor", "hasOwnProperty", "isPrototypeOf", "propertyIsEnumerable",
    "toLocaleString", "toString", "valueOf", "__proto__",
    "__defineGetter__", "__defineSetter__", "__lookupGetter__", "__lookupSetter__"
  }

  /** `expandedTables[name]` taken as a condition: an own entry decides;
      otherwise an inherited property reads as true and anything else as
      `undefined`, that is, collapsed. */
  predicate IsExpanded(expanded: Expanded, table: string) {
    if table in expanded then expanded[table] else table in InheritedNames
  }

  /** Before any click, only the tables named like an inherited property
      show as expanded, and the first click on one of them collapses it. */
  lemma InheritedNamesStartOpen(table: string)
    ensures IsExpanded(map[], table) <==> table in InheritedNames
    ensures table in InheritedNames ==> !IsExpanded(Toggle(map[], table), table)
  {
  }

  /** `toggleTable`: a copy of the map with the table's flag flipped. */
  function Toggle(expanded: Expanded, table: string): (r: Expanded)
    ensures IsExpanded(r, table) <==> !IsExpanded(expanded, table)
    ensures r.Keys == expanded.Keys + {table}
    ensures forall other :: other != table && other in expanded ==> r[other] == expanded[other]
  {
    expanded[table := !IsExpanded(expanded, table)]
  }

  /** Toggling a table twice shows it as it was. */
  lemma ToggleTwice(expanded: Expanded, table: string, t: string)
    ensures IsExpanded(Toggle(Toggle(expanded, table), table), t) == IsExpanded(expanded, t)
  {
  }

  /** Toggling two different tables gives the same map in either order. */
  lemma ToggleCommutes(expanded: Expanded, a: string, b: string)
    requires a != b
    ensures Toggle(Toggle(expanded, a), b) == Toggle(Toggle(expanded, b), a)
  {
  }

  /** One table as the tree shows it: its name, its chevron, and its columns
      when it is expanded. */
  datatype TableView = TableView(name: string, expanded: bool, columns: seq<Column>)

  datatype View = NoDatabase | Tree(name: string, tables: seq<TableView>)

  /** The message shown when there is no structure. */
  const NoDatabaseMessage := "No database selected"

  function ShowTable(table: Table, expanded: Expanded): TableView {
    var open := IsExpanded(expanded, table.name);
    TableView(table.name, open, if open then table.columns else [])
  }

  /** What the explorer renders: the message without a structure; otherwise
      every table in order, its columns listed only when it is expanded. */
  function Render(structure: Option<Structure>, expanded: Expanded): (view: View)
    ensures view.NoDatabase? <==> structure.None?
    ensures structure.Some? ==> view.name == structure.value.name && |view.tables| == |structure.value.tables|
    ensures structure.Some? ==> forall i :: 0 <= i < |view.tables| ==>
              view.tables[i].name == structure.value.tables[i].name
              && (view.tables[i].columns != [] ==> IsExpanded(expanded, view.tables[i].name))
              && (IsExpanded(expanded, view.tables[i].name) ==> view.tables[i].columns == structure.value.tables[i].columns)
  {
    match structure
    case None => NoDatabase
    case Some(s) =>
      Tree(s.name, seq(|s.tables|, i requires 0 <= i < |s.tables| => ShowTable(s.tables[i], expanded)))
  }

  /** Clicking a table changes only the tables of that name: every other
      table is shown as before, and the clicked one flips open or shut. */
  lemma ToggleChangesOnlyThatTable(s: Structure, expanded: Expanded, table: string)
    ensures var before, after := Render(Some(s), expanded), Render(Some(s), Toggle(expanded, table));
            forall i :: 0 <= i < |s.tables| ==>
              if s.tables[i].name == table then after.tables[i].expanded == !before.tables[i].expanded
              else after.tables[i] == before.tables[i]
  {
  }
}
