/** The mock query runner (src/api/queryExecutor.ts): it picks one of four
    fixed datasets by looking for keywords in the lower-cased query, and
    reports the rows with the keys of the first row as the columns. The four
    datasets are parameters here. */
module QueryExecutor {
  import opened Wrappers
  import opened Text
  import opened Json

  datatype Dataset = Employees | Sales | Products | Customers

  datatype Datasets = Datasets(employees: seq<Value>, sales: seq<Value>, products: seq<Value>, customers: seq<Value>)

  function Rows(ds: Datasets, d: Dataset): seq<Value> {
    match d
    case Employees => ds.employees
    case Sales => ds.sales
    case Products => ds.products
    case Customers => ds.customers
  }

  /** The keyword tests, in the order they are tried. */
  const Keywords: seq<(seq<string>, Dataset)> := [
    (["employee", "staff"], Employees),
    (["sale", "revenue"], Sales),
    (["product", "item"], Products),
    (["customer", "client"], Customers)
  ]

  /** The if/else chain: the first group with a keyword in the lower-cased
      query wins, and a query with none of them gets the employees. */
  function Classify(query: string): Dataset {
    var q := LowerAscii(query);
    if Contains(q, "employee") || Contains(q, "staff") then Employees
    else if Contains(q, "sale") || Contains(q, "revenue") then Sales
    else if Contains(q, "product") || Contains(q, "item") then Products
    else if Contains(q, "customer") || Contains(q, "client") then Customers
    else Employees
  }

  /** The dataset of the first group in `groups` one of whose words occurs in `q`. */
  function FirstMatch(groups: seq<(seq<string>, Dataset)>, q: string): Option<Dataset> {
    if groups == [] then None
    else if exists w | w in groups[0].0 :: Contains(q, w) then Some(groups[0].1)
    else FirstMatch(groups[1..], q)
  }

  /** The chain is a first-match search over the keyword table, with the
      employees as the default. */
  lemma ClassifyIsFirstMatch(query: string)
    ensures Classify(query) == match FirstMatch(Keywords, LowerAscii(query))
                               case Some(d) => d
                               case None => Employees
  {
    var q := LowerAscii(query);
    var g1, g2, g3 := Keywords[1..], Keywords[2..], Keywords[3..];
    assert g1[1..] == g2 && g2[1..] == g3 && g3[1..] == [];
    EitherWord(Keywords[0].0, q);
    EitherWord(g1[0].0, q);
    EitherWord(g2[0].0, q);
    EitherWord(g3[0].0, q);
    assert FirstMatch(g3, q) == if Contains(q, "customer") || Contains(q, "client") then Some(Customers) else None;
    assert FirstMatch(g2, q) == if Contains(q, "product") || Contains(q, "item") then Some(Products) else FirstMatch(g3, q);
    assert FirstMatch(g1, q) == if Contains(q, "sale") || Contains(q, "revenue") then Some(Sales) else FirstMatch(g2, q);
  }

  /** A group of two words matches when either word occurs. */
  lemma EitherWord(words: seq<string>, q: string)
    requires |words| == 2
    ensures (exists w | w in words :: Contains(q, w)) <==> Contains(q, words[0]) || Contains(q, words[1])
  {
  }

  /** Only the lower-cased query is looked at: queries that lower-case alike
      select the same dataset. */
  lemma ClassifyIgnoresCase(query: string, query': string)
    requires LowerAscii(query) == LowerAscii(query')
    ensures Classify(query) == Classify(query')
  {
  }

  /** Lower-casing first changes nothing. */
  lemma ClassifyLowered(query: string)
    ensures Classify(LowerAscii(query)) == Classify(query)
  {
    LowerAsciiIdempotent(query);
  }

  /** Lower-casing distributes over concatenation. */
  lemma LowerAsciiAppend(a: string, b: string)
    ensures LowerAscii(a + b) == LowerAscii(a) + LowerAscii(b)
  {
  }

  /** `sub` occurs in `s + sub`. */
  lemma ContainsSuffix(s: string, sub: string)
    ensures Contains(s + sub, sub)
  {
    assert OccursAt(s + sub, sub, |s|);
  }

  /** The employees group is tested first: a query that mentions employees
      or staff selects the employees, whatever else it says. */
  lemma StaffWins(query: string)
    requires Contains(LowerAscii(query), "employee") || Contains(LowerAscii(query), "staff")
    ensures Classify(query) == Employees
  {
  }

  /** In particular, appending `STAFF` to any query selects the employees. */
  lemma StaffSuffixWins(query: string)
    ensures Classify(query + "STAFF") == Employees
  {
    LowerAsciiAppend(query, "STAFF");
    assert LowerAscii("STAFF") == "staff";
    ContainsSuffix(LowerAscii(query), "staff");
    StaffWins(query + "STAFF");
  }

  /** A query with no keyword selects the employees. */
  lemma DefaultIsEmployees(query: string)
    requires forall g, w :: 0 <= g < |Keywords| && w in Keywords[g].0 ==> !Contains(LowerAscii(query), w)
    ensures Classify(query) == Employees
  {
    assert "employee" in Keywords[0].0 && "staff" in Keywords[0].0;
    assert "sale" in Keywords[1].0 && "revenue" in Keywords[1].0;
    assert "product" in Keywords[2].0 && "item" in Keywords[2].0;
    assert "customer" in Keywords[3].0 && "client" in Keywords[3].0;
  }

  datatype QueryResult = QueryResult(data: seq<Value>, columns: seq<string>)

  /** `Object.keys(dataset[0])` throws when the chosen dataset is empty or
      starts with `null`. */
  datatype QueryError = NoFirstRow

  /** `queryExecutor(query)`: the chosen dataset and its first row's keys. */
  function Execute(query: string, ds: Datasets): (r: Result<QueryResult, QueryError>)
    ensures r.Success? <==> Rows(ds, Classify(query)) != [] && !Rows(ds, Classify(query))[0].Null?
    ensures r.Success? ==> r.value.data == Rows(ds, Classify(query)) && r.value.data != []
                           && ObjectKeys(r.value.data[0]) == Some(r.value.columns)
  {
    var rows := Rows(ds, Classify(query));
    if rows == [] then Failure(NoFirstRow)
    else match ObjectKeys(rows[0])
      case None => Failure(NoFirstRow)
      case Some(keys) => Success(QueryResult(rows, keys))
  }
}
