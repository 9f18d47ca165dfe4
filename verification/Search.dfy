/**
  The search compiler (internal/ontology/compiler.go): filters become conditions over named
  parameters.  Go iterates both maps in an arbitrary order, so the compiled query is only fixed up
  to that order; what it selects is shown not to depend on it.
 */
module Search {
  import opened Wrappers
  import opened SqlText

  datatype Property = Property(sourceField: string, expression: string, availability: string, metricRef: string,
                               filterable: bool, searchable: bool)

  datatype Source = Source(schema: string, table: string)

  datatype ObjectType = ObjectType(properties: map<string, Property>, source: Source)

  datatype Filters<V> = Filters(filters: map<string, V>, sort: string, order: string)

  /** One condition: a column equals a named parameter. */
  datatype Clause = Clause(column: string, param: string)

  datatype Ordering = Ordering(column: string, direction: string)

  datatype CompiledQuery<V> = CompiledQuery(sql: string, countSql: string, args: map<string, V>,
                                            columns: seq<string>, metricRefs: seq<string>, virtualProps: seq<string>)

  // ---------------------------------------------------------------- parameter names

  /** What one rune of a filter key becomes. */
  function RuneText(r: char, first: bool): string {
    if IsWordChar(r) then [r]
    else if r == '-' || r == '.' || r == ' ' then "_"
    else if first then "f"
    else ""
  }

  function RunesText(key: string, n: nat): string
    requires n <= |key|
  {
    if n == 0 then "" else RunesText(key, n - 1) + RuneText(key[n - 1], n == 1)
  }

  function ParamName(key: string): string {
    var text := RunesText(key, |key|);
    if text == "" then "f" else if IsWordStart(text[0]) then text else "f_" + text
  }

  /** sanitizeParamName: the builder loop. */
  method SanitizeParamName(key: string) returns (name: string)
    ensures name == ParamName(key)
  {
    name := "";
    for i := 0 to |key|
      invariant name == RunesText(key, i)
    {
      var r := key[i];
      if IsWordChar(r) {
        name := name + [r];
      } else if r == '-' || r == '.' || r == ' ' {
        name := name + "_";
      } else if i == 0 {
        name := name + "f";
      }
    }
    if name == "" {
      return "f";
    }
    if !IsWordStart(name[0]) {
      name := "f_" + name;
    }
  }

  lemma {:induction false} RunesAreWordChars(key: string, n: nat)
    requires n <= |key|
    ensures forall c :: c in RunesText(key, n) ==> IsWordChar(c)
  {
    if n > 0 {
      RunesAreWordChars(key, n - 1);
    }
  }

  lemma {:induction false} WordRunes(key: string, n: nat)
    requires n <= |key| && forall c :: c in key ==> IsWordChar(c)
    ensures RunesText(key, n) == key[..n]
  {
    if n > 0 {
      WordRunes(key, n - 1);
      assert key[n - 1] in key;
      assert key[..n] == key[..n - 1] + [key[n - 1]];
    }
  }

  /** Every parameter name is an identifier, and sanitising one again changes nothing. */
  lemma ParamNameIsWord(key: string)
    ensures IsWord(ParamName(key)) && ParamName(ParamName(key)) == ParamName(key)
  {
    RunesAreWordChars(key, |key|);
    var name := ParamName(key);
    WordRunes(name, |name|);
    assert name[..|name|] == name;
  }

  /** Sanitising is not injective: these two keys share a parameter. */
  lemma ParamNamesCollide()
    ensures ParamName("a-b") == ParamName("a.b") == "a_b"
  {
    assert RunesText("a-b", 3) == "a_b" && RunesText("a.b", 3) == "a_b";
  }

  /** A key that is an identifier is its own parameter. */
  lemma ParamNamesAre(key: string)
    ensures IsWord(key) ==> ParamName(key) == key
  {
    if IsWord(key) {
      WordRunes(key, |key|);
      assert key[..|key|] == key;
    }
  }

  lemma OddParamNames()
    ensures ParamName("") == "f" && ParamName("1") == "f_1" && ParamName(" ") == "_" && ParamName("#") == "f"
  {
    assert RunesText("1", 1) == "1" && RunesText(" ", 1) == "_" && RunesText("#", 1) == "f";
  }

  /** Behind its first rune, any other rune of a key is dropped. */
  lemma OtherRunesAreDropped(key: string, r: char)
    requires key != "" && !IsWordChar(r) && r !in {'-', '.', ' '}
    ensures ParamName(key + [r]) == ParamName(key)
  {
    RunesBefore(key, [r], |key|);
  }

  lemma {:induction false} RunesBefore(key: string, more: string, n: nat)
    requires n <= |key|
    ensures RunesText(key + more, n) == RunesText(key, n)
  {
    if n > 0 {
      RunesBefore(key, more, n - 1);
    }
  }

  // ---------------------------------------------------------------- conditions as text

  /** pgx drops NUL bytes before quoting. */
  function WithoutNul(name: string): string {
    if name == "" then ""
    else if name[0] == '\0' then WithoutNul(name[1..])
    else [name[0]] + WithoutNul(name[1..])
  }

  /** No NUL is left, and nothing else is lost. */
  lemma {:induction false} WithoutNulIs(name: string, more: string)
    ensures '\0' !in WithoutNul(name)
    ensures '\0' !in name ==> WithoutNul(name) == name
    ensures WithoutNul(name + ['\0'] + more) == WithoutNul(name) + WithoutNul(more)
  {
    if name == "" {
      assert name + ['\0'] + more == ['\0'] + more;
      assert (['\0'] + more)[1..] == more;
    } else {
      assert name == [name[0]] + name[1..] && name[0] in name;
      assert (name + ['\0'] + more)[1..] == name[1..] + ['\0'] + more;
      WithoutNulIs(name[1..], more);
    }
  }

  /** pgx.Identifier{name}.Sanitize(). */
  function Sanitize(name: string): string {
    Quote(WithoutNul(name))
  }

  function ClauseText(c: Clause): string {
    Quote(c.column) + (" = @" + c.param)
  }

  function ClausesText(clauses: seq<Clause>): string
    requires clauses != []
  {
    if |clauses| == 1 then ClauseText(clauses[0]) else ClauseText(clauses[0]) + (" AND " + ClausesText(clauses[1..]))
  }

  function WhereText(clauses: seq<Clause>): string {
    if clauses == [] then "" else " WHERE " + ClausesText(clauses)
  }

  function OrderText(order: Option<Ordering>): string {
    if order.None? then "" else " ORDER BY " + Quote(order.value.column) + " " + order.value.direction
  }

  function ScanClause(s: string): Option<Scan<Clause>> {
    match ScanQuoted(s) case None => None case Some(Scan(column, s1)) =>
    match Skip(s1, " = @") case None => None case Some(s2) =>
    var n := WordLength(s2);
    if n == 0 || !IsWordStart(s2[0]) then None else Some(Scan(Clause(column, s2[..n]), s2[n..]))
  }

  function ScanClauses(s: string): Option<Scan<seq<Clause>>>
    decreases |s|
  {
    match ScanClause(s)
    case None => None
    case Some(Scan(c, rest)) =>
      if |rest| >= |s| then None
      else match Skip(rest, " AND ")
        case None => Some(Scan([c], rest))
        case Some(next) =>
          match ScanClauses(next)
          case None => None
          case Some(Scan(more, end)) => Some(Scan([c] + more, end))
  }

  /** Reads the conditions behind a FROM clause; what follows them is returned. */
  function ScanWhere(s: string): Option<Scan<seq<Clause>>> {
    match Skip(s, " WHERE ")
    case None => Some(Scan([], s))
    case Some(s1) => ScanClauses(s1)
  }

  lemma ClauseReadsBack(c: Clause, rest: string)
    requires IsWord(c.param) && (rest == "" || !IsWordChar(rest[0]))
    ensures ScanClause(ClauseText(c) + rest) == Some(Scan(c, rest))
  {
    assert ClauseText(c) + rest == Quote(c.column) + (" = @" + (c.param + rest));
    QuoteReadsBack(c.column, " = @" + (c.param + rest));
    SkipFixed(" = @", c.param + rest);
    WordLengthOf(c.param, rest);
  }

  lemma LastClauseReadsBack(c: Clause, rest: string)
    requires IsWord(c.param) && (rest == "" || !IsWordChar(rest[0])) && !(" AND " <= rest)
    ensures ScanClauses(ClauseText(c) + rest) == Some(Scan([c], rest))
  {
    ClauseReadsBack(c, rest);
  }

  lemma NextClauseReadsBack(c: Clause, tail: string, more: seq<Clause>, rest: string)
    requires IsWord(c.param) && ScanClauses(tail) == Some(Scan(more, rest))
    ensures ScanClauses(ClauseText(c) + (" AND " + tail)) == Some(Scan([c] + more, rest))
  {
    ClauseReadsBack(c, " AND " + tail);
    SkipFixed(" AND ", tail);
  }

  lemma {:induction false} ClausesReadBack(clauses: seq<Clause>, rest: string)
    requires clauses != [] && forall c :: c in clauses ==> IsWord(c.param)
    requires (rest == "" || !IsWordChar(rest[0])) && !(" AND " <= rest)
    ensures ScanClauses(ClausesText(clauses) + rest) == Some(Scan(clauses, rest))
  {
    assert clauses == [clauses[0]] + clauses[1..];
    if |clauses| == 1 {
      assert clauses == [clauses[0]];
      LastClauseReadsBack(clauses[0], rest);
    } else {
      ClausesReadBack(clauses[1..], rest);
      NextClauseReadsBack(clauses[0], ClausesText(clauses[1..]) + rest, clauses[1..], rest);
      Associate(ClauseText(clauses[0]), " AND ", ClausesText(clauses[1..]), rest);
    }
  }

  lemma WhereReadsBackBefore(clauses: seq<Clause>, rest: string)
    requires forall c :: c in clauses ==> IsWord(c.param)
    requires rest == "" || (rest[0] == ' ' && !(" AND " <= rest) && !(" WHERE " <= rest))
    ensures ScanWhere(WhereText(clauses) + rest) == Some(Scan(clauses, rest))
  {
    if clauses == [] {
      assert WhereText(clauses) + rest == rest;
    } else {
      ClausesReadBack(clauses, rest);
      assert WhereText(clauses) + rest == " WHERE " + (ClausesText(clauses) + rest);
      SkipFixed(" WHERE ", ClausesText(clauses) + rest);
    }
  }

  /** The printed conditions read back as themselves, before an ORDER BY or at the end of the query. */
  lemma WhereReadsBack(clauses: seq<Clause>, order: Option<Ordering>)
    requires forall c :: c in clauses ==> IsWord(c.param)
    ensures ScanWhere(WhereText(clauses) + OrderText(order)) == Some(Scan(clauses, OrderText(order)))
  {
    if order.Some? {
      assert OrderText(order)[1] == 'O';
    }
    WhereReadsBackBefore(clauses, OrderText(order));
  }

  // ---------------------------------------------------------------- whole queries as text

  function FromText(source: Source): string {
    " FROM " + Sanitize(source.schema) + "." + Sanitize(source.table)
  }

  /** What a search query reads from, under which conditions, in which order. */
  datatype Relation = Relation(schema: string, table: string, clauses: seq<Clause>, ordering: Option<Ordering>)

  function ReadOrder(s: string): Option<Option<Ordering>> {
    if s == "" then Some(None)
    else
      match Skip(s, " ORDER BY ") case None => None case Some(s1) =>
      match ScanQuoted(s1) case None => None case Some(Scan(column, s2)) =>
      if s2 == " ASC" || s2 == " DESC" then Some(Some(Ordering(column, s2[1..]))) else None
  }

  /** Reads what stands behind the select list; anything else is rejected. */
  function ReadRelation(s: string): Option<Relation> {
    match Skip(s, " FROM ") case None => None case Some(s1) =>
    match ScanQuoted(s1) case None => None case Some(Scan(schema, s2)) =>
    match Skip(s2, ".") case None => None case Some(s3) =>
    match ScanQuoted(s3) case None => None case Some(Scan(table, s4)) =>
    match ScanWhere(s4) case None => None case Some(Scan(clauses, s5)) =>
    match ReadOrder(s5) case None => None case Some(ordering) =>
    Some(Relation(schema, table, clauses, ordering))
  }

  predicate DirectionKnown(ordering: Option<Ordering>) {
    ordering.Some? ==> ordering.value.direction == "ASC" || ordering.value.direction == "DESC"
  }

  lemma OrderGrouped(column: string, behind: string)
    ensures Skip(" ORDER BY " + (Quote(column) + behind), " ORDER BY ") == Some(Quote(column) + behind)
    ensures behind != "" && behind[0] == ' ' ==> ScanQuoted(Quote(column) + behind) == Some(Scan(column, behind))
  {
    SkipFixed(" ORDER BY ", Quote(column) + behind);
    if behind != "" && behind[0] == ' ' {
      QuoteReadsBack(column, behind);
    }
  }

  lemma AscReadsBack(column: string)
    ensures ReadOrder(" ORDER BY " + (Quote(column) + " ASC")) == Some(Some(Ordering(column, "ASC")))
  {
    OrderGrouped(column, " ASC");
    assert " ASC"[1..] == "ASC";
  }

  lemma DescReadsBack(column: string)
    ensures ReadOrder(" ORDER BY " + (Quote(column) + " DESC")) == Some(Some(Ordering(column, "DESC")))
  {
    OrderGrouped(column, " DESC");
    assert " DESC"[1..] == "DESC";
  }

  lemma DirectionReadsBack(column: string, direction: string)
    requires direction == "ASC" || direction == "DESC"
    ensures ReadOrder(" ORDER BY " + (Quote(column) + (" " + direction))) == Some(Some(Ordering(column, direction)))
  {
    if direction == "ASC" {
      AscReadsBack(column);
      assert " " + direction == " ASC";
    } else {
      DescReadsBack(column);
      assert " " + direction == " DESC";
    }
  }

  lemma OrderTextGrouped(ordering: Ordering)
    ensures OrderText(Some(ordering)) == " ORDER BY " + (Quote(ordering.column) + (" " + ordering.direction))
  {
  }

  lemma OrderReadsBack(ordering: Option<Ordering>)
    requires DirectionKnown(ordering)
    ensures ReadOrder(OrderText(ordering)) == Some(ordering)
  {
    if ordering.Some? {
      DirectionReadsBack(ordering.value.column, ordering.value.direction);
      OrderTextGrouped(ordering.value);
    }
  }

  lemma WhereStartsWithBlank(clauses: seq<Clause>, ordering: Option<Ordering>)
    ensures var s := WhereText(clauses) + OrderText(ordering); s == "" || s[0] == ' '
  {
  }

  /** Schema, table, conditions and ordering read back from the printed text. */
  lemma RelationReadsBack(source: Source, clauses: seq<Clause>, ordering: Option<Ordering>)
    requires DirectionKnown(ordering) && forall c :: c in clauses ==> IsWord(c.param)
    ensures ReadRelation(FromText(source) + (WhereText(clauses) + OrderText(ordering)))
         == Some(Relation(WithoutNul(source.schema), WithoutNul(source.table), clauses, ordering))
  {
    var schema, table := WithoutNul(source.schema), WithoutNul(source.table);
    var behind := WhereText(clauses) + OrderText(ordering);
    WhereStartsWithBlank(clauses, ordering);
    FromGrouped(Quote(schema), Quote(table), behind);
    SkipFixed(" FROM ", Quote(schema) + ("." + (Quote(table) + behind)));
    QuoteReadsBack(schema, "." + (Quote(table) + behind));
    SkipFixed(".", Quote(table) + behind);
    QuoteReadsBack(table, behind);
    WhereReadsBack(clauses, ordering);
    OrderReadsBack(ordering);
  }

  lemma FromGrouped(schema: string, table: string, behind: string)
    ensures " FROM " + schema + "." + table + behind == " FROM " + (schema + ("." + (table + behind)))
  {
  }

  /** One entry of a select list. */
  datatype SelectItem = SelectItem(expression: string, name: string)

  function ItemText(item: SelectItem): string {
    item.expression + " AS " + Quote(item.name)
  }

  function ItemsText(items: seq<SelectItem>): string {
    if items == [] then ""
    else if |items| == 1 then ItemText(items[0])
    else ItemText(items[0]) + (", " + ItemsText(items[1..]))
  }

  /** How many characters stand before the first double quote. */
  function UnquotedLength(s: string): (n: nat)
    ensures n <= |s| && (forall i :: 0 <= i < n ==> s[i] != '"') && (n < |s| ==> s[n] == '"')
  {
    if s == "" || s[0] == '"' then 0 else 1 + UnquotedLength(s[1..])
  }

  function ReadItem(s: string): Option<Scan<SelectItem>> {
    var n := UnquotedLength(s);
    if n < 4 || s[n - 4..n] != " AS " then None
    else match ScanQuoted(s[n..])
      case None => None
      case Some(Scan(name, rest)) => Some(Scan(SelectItem(s[..n - 4], name), rest))
  }

  function ReadItems(s: string): Option<Scan<seq<SelectItem>>>
    decreases |s|
  {
    match ReadItem(s)
    case None => None
    case Some(Scan(item, rest)) =>
      if |rest| >= |s| then None
      else match Skip(rest, ", ")
        case None => Some(Scan([item], rest))
        case Some(next) =>
          match ReadItems(next)
          case None => None
          case Some(Scan(items, end)) => Some(Scan([item] + items, end))
  }

  lemma ItemReadsBack(item: SelectItem, rest: string)
    requires '"' !in item.expression && !StartsWith(rest, '"')
    ensures ReadItem(ItemText(item) + rest) == Some(Scan(item, rest))
  {
    var s := ItemText(item) + rest;
    var n := |item.expression| + 4;
    assert s == (item.expression + " AS ") + (Quote(item.name) + rest);
    UnquotedUpTo(item.expression + " AS ", Quote(item.name) + rest);
    LabelSplit(item.expression, Quote(item.name) + rest);
    QuoteReadsBack(item.name, rest);
  }

  lemma {:induction false} UnquotedUpTo(plain: string, behind: string)
    requires '"' !in plain && StartsWith(behind, '"')
    ensures UnquotedLength(plain + behind) == |plain|
  {
    if plain == "" {
      assert plain + behind == behind;
    } else {
      assert plain[0] in plain && (plain + behind)[1..] == plain[1..] + behind;
      UnquotedUpTo(plain[1..], behind);
    }
  }

  lemma LabelSplit(expression: string, behind: string)
    ensures var s, n := (expression + " AS ") + behind, |expression| + 4;
      s[n - 4..n] == " AS " && s[..n - 4] == expression && s[n..] == behind
  {
  }

  lemma LastItemReadsBack(item: SelectItem, rest: string)
    requires '"' !in item.expression && !StartsWith(rest, '"') && !(", " <= rest)
    ensures ReadItems(ItemText(item) + rest) == Some(Scan([item], rest))
  {
    ItemReadsBack(item, rest);
  }

  lemma NextItemReadsBack(item: SelectItem, tail: string, more: seq<SelectItem>, rest: string)
    requires '"' !in item.expression && ReadItems(tail) == Some(Scan(more, rest))
    ensures ReadItems(ItemText(item) + (", " + tail)) == Some(Scan([item] + more, rest))
  {
    ItemReadsBack(item, ", " + tail);
    SkipFixed(", ", tail);
  }

  /** A select list of expressions without double quotes reads back entry by entry. */
  lemma {:induction false} ItemsReadBack(items: seq<SelectItem>, rest: string)
    requires items != [] && (forall item :: item in items ==> '"' !in item.expression)
    requires !StartsWith(rest, '"') && !(", " <= rest)
    ensures ReadItems(ItemsText(items) + rest) == Some(Scan(items, rest))
  {
    assert items == [items[0]] + items[1..];
    if |items| == 1 {
      assert items == [items[0]];
      LastItemReadsBack(items[0], rest);
    } else {
      ItemsReadBack(items[1..], rest);
      NextItemReadsBack(items[0], ItemsText(items[1..]) + rest, items[1..], rest);
      Associate(ItemText(items[0]), ", ", ItemsText(items[1..]), rest);
    }
  }

  /** An expression with double quotes can pass for two entries, so no reader can recover every list. */
  lemma QuotedExpressionsAreAmbiguous()
    ensures ItemsText([SelectItem("a AS \"b\", c", "d")]) == ItemsText([SelectItem("a", "b"), SelectItem("c", "d")])
  {
    QuotedText("b", "");
    QuotedText("d", "");
    var first, second := SelectItem("a", "b"), SelectItem("c", "d");
    assert [first, second][1..] == [second];
    assert ItemText(first) == "a AS \"b\"" && ItemText(second) == "c AS \"d\"";
  }

  // ---------------------------------------------------------------- compiling the filters

  /** The filters that take part: known and filterable. */
  predicate Accepted<V>(ot: ObjectType, filters: map<string, V>, key: string) {
    key in filters && key in ot.properties && ot.properties[key].filterable
  }

  function ClauseFor(ot: ObjectType, key: string): Clause
    requires key in ot.properties
  {
    Clause(WithoutNul(ot.properties[key].sourceField), ParamName(key))
  }

  /** Some order in which the accepted filters were visited. */
  ghost predicate Visits<V>(ot: ObjectType, filters: map<string, V>, order: seq<string>) {
    && (forall key :: key in order <==> Accepted(ot, filters, key))
    && (forall i, j :: 0 <= i < j < |order| ==> order[i] != order[j])
  }

  function ClausesFor(ot: ObjectType, order: seq<string>): seq<Clause>
    requires forall key :: key in order ==> key in ot.properties
  {
    seq(|order|, i requires 0 <= i < |order| => ClauseFor(ot, order[i]))
  }

  /** Later filters overwrite the parameter of earlier ones. */
  function ArgsFor<V>(filters: map<string, V>, order: seq<string>): map<string, V>
    requires forall key :: key in order ==> key in filters
  {
    if order == [] then map[]
    else
      var last := order[|order| - 1];
      ArgsFor(filters, order[..|order| - 1])[ParamName(last) := filters[last]]
  }

  /** Filter by filter: the column is the property's source field, and the last filter of a parameter binds it. */
  lemma CompiledFilters<V>(ot: ObjectType, filters: map<string, V>, order: seq<string>, key: string)
    requires forall k :: k in order + [key] ==> k in ot.properties && k in filters
    ensures ClausesFor(ot, []) == [] && ArgsFor(filters, []) == map[]
    ensures ClausesFor(ot, order + [key])
         == ClausesFor(ot, order) + [Clause(WithoutNul(ot.properties[key].sourceField), ParamName(key))]
    ensures ArgsFor(filters, order + [key]) == ArgsFor(filters, order)[ParamName(key) := filters[key]]
  {
    OneMoreFilter(ot, filters, order, key);
  }

  // ---------------------------------------------------------------- meaning

  type Row<!V> = string -> V

  /** The filters as the caller means them. */
  ghost predicate Matches<V>(ot: ObjectType, filters: map<string, V>, row: Row<V>) {
    forall key :: Accepted(ot, filters, key) ==> row(ClauseFor(ot, key).column) == filters[key]
  }

  /** The conditions as the database evaluates them. */
  predicate Holds<V(==)>(clauses: seq<Clause>, args: map<string, V>, row: Row<V>) {
    forall c :: c in clauses ==> c.param in args && row(c.column) == args[c.param]
  }

  /** Filters that share a parameter agree on its value. */
  ghost predicate NoClash<V>(ot: ObjectType, filters: map<string, V>) {
    forall k1, k2 :: Accepted(ot, filters, k1) && Accepted(ot, filters, k2) && ParamName(k1) == ParamName(k2)
                     ==> filters[k1] == filters[k2]
  }

  /** Each parameter is bound to the value of some filter that uses it, and only such parameters are bound. */
  lemma {:induction false} ArgsAreBound<V>(filters: map<string, V>, order: seq<string>)
    requires forall key :: key in order ==> key in filters
    ensures forall key :: key in order ==> ParamName(key) in ArgsFor(filters, order)
    ensures forall p :: p in ArgsFor(filters, order) ==>
              exists key :: key in order && ParamName(key) == p && ArgsFor(filters, order)[p] == filters[key]
  {
    if order != [] {
      var last, earlier := order[|order| - 1], order[..|order| - 1];
      assert order == earlier + [last];
      ArgsAreBound(filters, earlier);
      var args := ArgsFor(filters, order);
      forall p | p in args ensures exists key :: key in order && ParamName(key) == p && args[p] == filters[key] {
        if p == ParamName(last) {
          assert last in order;
        } else {
          var key :| key in earlier && ParamName(key) == p && ArgsFor(filters, earlier)[p] == filters[key];
          assert key in order;
        }
      }
    }
  }

  /** When no parameters clash, the query selects exactly the rows the filters mean, in every visiting order. */
  lemma CompiledFiltersMean<V>(ot: ObjectType, filters: map<string, V>, order: seq<string>, row: Row<V>)
    requires Visits(ot, filters, order) && NoClash(ot, filters)
    ensures Holds(ClausesFor(ot, order), ArgsFor(filters, order), row) <==> Matches(ot, filters, row)
  {
    var clauses, args := ClausesFor(ot, order), ArgsFor(filters, order);
    ArgsAreBound(filters, order);
    forall key | key in order ensures args[ParamName(key)] == filters[key] {
      assert Accepted(ot, filters, key);
    }
    if Matches(ot, filters, row) {
      forall c | c in clauses ensures c.param in args && row(c.column) == args[c.param] {
        var i :| 0 <= i < |order| && clauses[i] == c;
        assert order[i] in order;
      }
    }
    if Holds(clauses, args, row) {
      forall key | Accepted(ot, filters, key) ensures row(ClauseFor(ot, key).column) == filters[key] {
        var i :| 0 <= i < |order| && order[i] == key;
        assert clauses[i] in clauses;
      }
    }
  }

  // ---------------------------------------------------------------- exactly when the meaning is kept

  /** The value the query compares the column of a filter with: whatever its parameter is bound to. */
  function Bound<V>(filters: map<string, V>, order: seq<string>): map<string, V>
    requires forall key :: key in order ==> key in filters
  {
    ArgsAreBound(filters, order);
    map key | key in order :: ArgsFor(filters, order)[ParamName(key)]
  }

  /** A row whose columns have the values asked of them. */
  ghost predicate Meets<V>(ot: ObjectType, asked: map<string, V>, row: Row<V>)
    requires asked.Keys <= ot.properties.Keys
  {
    forall key :: key in asked ==> row(ClauseFor(ot, key).column) == asked[key]
  }

  /** Some column is asked to have two values at once. */
  ghost predicate AsksTwoValues<V>(ot: ObjectType, asked: map<string, V>)
    requires asked.Keys <= ot.properties.Keys
  {
    exists k1, k2 :: k1 in asked && k2 in asked && ClauseFor(ot, k1).column == ClauseFor(ot, k2).column
        && asked[k1] != asked[k2]
  }

  /** The values the accepted filters ask for. */
  function Wanted<V>(ot: ObjectType, filters: map<string, V>): (wanted: map<string, V>)
    ensures wanted.Keys <= ot.properties.Keys
  {
    map key | key in filters && Accepted(ot, filters, key) :: filters[key]
  }

  /** What a row meeting everything asked must hold in a column, and some value where nothing is asked. */
  ghost function ValueAsked<V>(ot: ObjectType, asked: map<string, V>, default: V, column: string): V
    requires asked.Keys <= ot.properties.Keys
  {
    if exists key :: key in asked && ClauseFor(ot, key).column == column then
      var key :| key in asked && ClauseFor(ot, key).column == column;
      asked[key]
    else default
  }

  /** Unless some column is asked two values, a row built column by column meets everything asked. */
  lemma SomeRowMeets<V>(ot: ObjectType, asked: map<string, V>, default: V) returns (row: Row<V>)
    requires asked.Keys <= ot.properties.Keys && !AsksTwoValues(ot, asked)
    ensures Meets(ot, asked, row)
  {
    row := (column: string) => ValueAsked(ot, asked, default, column);
    forall key | key in asked ensures row(ClauseFor(ot, key).column) == asked[key] {
      assert row(ClauseFor(ot, key).column) == ValueAsked(ot, asked, default, ClauseFor(ot, key).column);
    }
  }

  lemma MatchesIsMeets<V>(ot: ObjectType, filters: map<string, V>, row: Row<V>)
    ensures Matches(ot, filters, row) <==> Meets(ot, Wanted(ot, filters), row)
  {
    var wanted := Wanted(ot, filters);
    assert forall key :: Accepted(ot, filters, key) <==> key in wanted;
  }

  lemma HoldsMeets<V>(ot: ObjectType, filters: map<string, V>, order: seq<string>, row: Row<V>)
    requires Visits(ot, filters, order) && Bound(filters, order).Keys <= ot.properties.Keys
    requires Holds(ClausesFor(ot, order), ArgsFor(filters, order), row)
    ensures Meets(ot, Bound(filters, order), row)
  {
    var clauses := ClausesFor(ot, order);
    forall key | key in Bound(filters, order) ensures row(ClauseFor(ot, key).column) == Bound(filters, order)[key] {
      var i :| 0 <= i < |order| && order[i] == key;
      assert clauses[i] in clauses;
    }
  }

  lemma MeetsHolds<V>(ot: ObjectType, filters: map<string, V>, order: seq<string>, row: Row<V>)
    requires Visits(ot, filters, order) && Bound(filters, order).Keys <= ot.properties.Keys
    requires Meets(ot, Bound(filters, order), row)
    ensures Holds(ClausesFor(ot, order), ArgsFor(filters, order), row)
  {
    var clauses, args := ClausesFor(ot, order), ArgsFor(filters, order);
    ArgsAreBound(filters, order);
    forall c | c in clauses ensures c.param in args && row(c.column) == args[c.param] {
      var i :| 0 <= i < |order| && clauses[i] == c;
      assert order[i] in Bound(filters, order);
    }
  }

  lemma BoundAreAccepted<V>(ot: ObjectType, filters: map<string, V>, order: seq<string>)
    requires Visits(ot, filters, order)
    ensures Bound(filters, order).Keys <= ot.properties.Keys
  {
    forall key | key in Bound(filters, order) ensures key in ot.properties {
      assert Accepted(ot, filters, key);
    }
  }

  lemma HoldsIsMeets<V>(ot: ObjectType, filters: map<string, V>, order: seq<string>, row: Row<V>)
    requires Visits(ot, filters, order)
    ensures Bound(filters, order).Keys <= ot.properties.Keys
    ensures Holds(ClausesFor(ot, order), ArgsFor(filters, order), row) <==> Meets(ot, Bound(filters, order), row)
  {
    BoundAreAccepted(ot, filters, order);
    if Holds(ClausesFor(ot, order), ArgsFor(filters, order), row) {
      HoldsMeets(ot, filters, order, row);
    }
    if Meets(ot, Bound(filters, order), row) {
      MeetsHolds(ot, filters, order, row);
    }
  }

  /** A clash leaves some filter whose parameter is bound to another value. */
  lemma ClashMisbinds<V>(ot: ObjectType, filters: map<string, V>, order: seq<string>)
    requires Visits(ot, filters, order) && !NoClash(ot, filters)
    ensures exists key :: key in order && key in Bound(filters, order) && Bound(filters, order)[key] != filters[key]
  {
    ArgsAreBound(filters, order);
    var k1, k2 :| Accepted(ot, filters, k1) && Accepted(ot, filters, k2)
      && ParamName(k1) == ParamName(k2) && filters[k1] != filters[k2];
    var args := ArgsFor(filters, order);
    var k := if args[ParamName(k1)] != filters[k1] then k1 else k2;
    assert k in order && Bound(filters, order)[k] != filters[k];
  }

  /** With a clash, no row both meets the filters and is returned. */
  lemma ClashSeparates<V>(ot: ObjectType, filters: map<string, V>, order: seq<string>, row: Row<V>)
    requires Visits(ot, filters, order) && !NoClash(ot, filters)
    ensures !(Matches(ot, filters, row) && Holds(ClausesFor(ot, order), ArgsFor(filters, order), row))
  {
    ClashMisbinds(ot, filters, order);
    var key :| key in order && key in Bound(filters, order) && Bound(filters, order)[key] != filters[key];
    HoldsIsMeets(ot, filters, order, row);
    assert Accepted(ot, filters, key);
  }

  /** The compiled conditions hold of exactly the rows the filters mean. */
  ghost predicate KeepsMeaning<V(!new)>(ot: ObjectType, filters: map<string, V>, order: seq<string>)
    requires Visits(ot, filters, order)
  {
    forall row: Row<V> :: Holds(ClausesFor(ot, order), ArgsFor(filters, order), row) <==> Matches(ot, filters, row)
  }

  /** Neither the filters nor the compiled conditions can be met by any row. */
  ghost predicate NothingToFind<V>(ot: ObjectType, filters: map<string, V>, order: seq<string>)
    requires Visits(ot, filters, order)
  {
    && AsksTwoValues(ot, Wanted(ot, filters))
    && Bound(filters, order).Keys <= ot.properties.Keys && AsksTwoValues(ot, Bound(filters, order))
  }

  lemma AskedTwiceMeetsNothing<V>(ot: ObjectType, asked: map<string, V>, row: Row<V>)
    requires asked.Keys <= ot.properties.Keys && AsksTwoValues(ot, asked)
    ensures !Meets(ot, asked, row)
  {
  }

  /** With a clash, the meaning is lost unless neither side can be met by any row. */
  lemma ClashLosesMeaning<V(!new)>(ot: ObjectType, filters: map<string, V>, order: seq<string>)
    requires Visits(ot, filters, order) && !NoClash(ot, filters) && !NothingToFind(ot, filters, order)
    ensures !KeepsMeaning(ot, filters, order)
  {
    var key :| Accepted(ot, filters, key);
    var wanted, bound := Wanted(ot, filters), Bound(filters, order);
    BoundAreAccepted(ot, filters, order);
    var row: Row<V>;
    if !AsksTwoValues(ot, wanted) {
      row := SomeRowMeets(ot, wanted, filters[key]);
      MatchesIsMeets(ot, filters, row);
    } else {
      row := SomeRowMeets(ot, bound, filters[key]);
      HoldsIsMeets(ot, filters, order, row);
    }
    ClashSeparates(ot, filters, order, row);
  }

  /**
    The exact condition, for all filters and visiting orders: the query holds of exactly the rows meant
    if and only if no two filters clash, or some column is asked two values by the filters and some
    column two values by the bound parameters, so that neither can find anything.
   */
  lemma MeaningKeptIff<V(!new)>(ot: ObjectType, filters: map<string, V>, order: seq<string>)
    requires Visits(ot, filters, order)
    ensures KeepsMeaning(ot, filters, order) <==> NoClash(ot, filters) || NothingToFind(ot, filters, order)
  {
    if NoClash(ot, filters) {
      forall row: Row<V>
        ensures Holds(ClausesFor(ot, order), ArgsFor(filters, order), row) <==> Matches(ot, filters, row)
      {
        CompiledFiltersMean(ot, filters, order, row);
      }
    } else if NothingToFind(ot, filters, order) {
      forall row: Row<V>
        ensures Holds(ClausesFor(ot, order), ArgsFor(filters, order), row) <==> Matches(ot, filters, row)
      {
        MatchesIsMeets(ot, filters, row);
        HoldsIsMeets(ot, filters, order, row);
        AskedTwiceMeetsNothing(ot, Wanted(ot, filters), row);
        AskedTwiceMeetsNothing(ot, Bound(filters, order), row);
      }
    } else {
      ClashLosesMeaning(ot, filters, order);
    }
  }

  // ---------------------------------------------------------------- a clash at work

  /** Two filterable properties whose names sanitise to the same parameter. */
  function Clashing(columnA: string, columnB: string): ObjectType {
    ObjectType(map["a-b" := Property(columnA, "", "", "", true, false),
                   "a.b" := Property(columnB, "", "", "", true, false)],
               Source("s", "t"))
  }

  lemma ClashingVisits(columnA: string, columnB: string)
    ensures var filters := map["a-b" := 1, "a.b" := 2];
      && Visits(Clashing(columnA, columnB), filters, ["a-b", "a.b"])
      && ArgsFor(filters, ["a-b", "a.b"]) == map["a_b" := 2]
      && ClausesFor(Clashing(columnA, columnB), ["a-b", "a.b"])
         == [Clause(WithoutNul(columnA), "a_b"), Clause(WithoutNul(columnB), "a_b")]
  {
    var filters, order := map["a-b" := 1, "a.b" := 2], ["a-b", "a.b"];
    ParamNamesCollide();
    assert order[..1] == ["a-b"] && order[..1][..0] == [];
    assert ArgsFor(filters, order[..1]) == map["a_b" := 1];
  }

  /** On different columns, the row the filters ask for is not returned. */
  lemma ClashLosesRow()
    ensures var ot, filters, order := Clashing("x", "y"), map["a-b" := 1, "a.b" := 2], ["a-b", "a.b"];
      var row := (column: string) => if column == "x" then 1 else 2;
      && Visits(ot, filters, order)
      && Matches(ot, filters, row) && !Holds(ClausesFor(ot, order), ArgsFor(filters, order), row)
  {
    ClashingVisits("x", "y");
    var ot, order := Clashing("x", "y"), ["a-b", "a.b"];
    assert WithoutNul("x") == "x" && WithoutNul("y") == "y";
    assert ClausesFor(ot, order)[0] in ClausesFor(ot, order);
  }

  /** On one column, filters no row can meet return every row with the second value. */
  lemma ClashFindsRow(row: Row<int>)
    requires row("x") == 2
    ensures var ot, filters, order := Clashing("x", "x"), map["a-b" := 1, "a.b" := 2], ["a-b", "a.b"];
      && Visits(ot, filters, order)
      && !Matches(ot, filters, row) && Holds(ClausesFor(ot, order), ArgsFor(filters, order), row)
  {
    ClashingVisits("x", "x");
    var ot, filters := Clashing("x", "x"), map["a-b" := 1, "a.b" := 2];
    assert WithoutNul("x") == "x";
    assert Accepted(ot, filters, "a-b");
  }

  // ---------------------------------------------------------------- tables

  function Select<V(==)>(table: seq<Row<V>>, clauses: seq<Clause>, args: map<string, V>): seq<Row<V>> {
    Filter(table, row => Holds(clauses, args, row))
  }

  ghost function Meant<V>(table: seq<Row<V>>, ot: ObjectType, filters: map<string, V>): seq<Row<V>> {
    if table == [] then []
    else (if Matches(ot, filters, table[0]) then [table[0]] else []) + Meant(table[1..], ot, filters)
  }

  /** Over any table the data query returns the rows meant, in table order, and the count query their number. */
  lemma {:induction false} SelectReturnsMeantRows<V>(table: seq<Row<V>>, ot: ObjectType, filters: map<string, V>,
                                                     order: seq<string>)
    requires Visits(ot, filters, order) && NoClash(ot, filters)
    ensures Select(table, ClausesFor(ot, order), ArgsFor(filters, order)) == Meant(table, ot, filters)
  {
    if table != [] {
      CompiledFiltersMean(ot, filters, order, table[0]);
      SelectReturnsMeantRows(table[1..], ot, filters, order);
    }
  }

  // ---------------------------------------------------------------- the compiler

  predicate IsMetric(p: Property) { p.metricRef != "" }

  predicate IsVirtual(p: Property) {
    !IsMetric(p) && p.availability == "virtual" && p.expression == ""
  }

  predicate IsColumn(p: Property) {
    !IsMetric(p) && p.availability != "planned" && !(p.availability == "virtual" && p.expression == "")
  }

  function Names(ot: ObjectType, which: Property -> bool): set<string> {
    set name | name in ot.properties && which(ot.properties[name])
  }

  /** The properties a query can sort by are the searchable ones; any other direction means ascending. */
  function OrderingOf<V>(ot: ObjectType, f: Filters<V>, upper: string -> string): Option<Ordering> {
    if f.sort == "" || f.sort !in ot.properties || !ot.properties[f.sort].searchable then None
    else Some(Ordering(WithoutNul(ot.properties[f.sort].sourceField),
                       if upper(f.order) == "DESC" then "DESC" else "ASC"))
  }

  lemma ExtendNames(names: set<string>, done: set<string>, name: string)
    requires name !in done
    ensures multiset(names * (done + {name}))
            == multiset(names * done) + (if name in names then multiset{name} else multiset{})
  {
    if name in names {
      assert names * (done + {name}) == names * done + {name};
    } else {
      assert names * (done + {name}) == names * done;
    }
  }

  function ColumnText(p: Property, name: string): string {
    (if p.expression != "" then p.expression else p.sourceField) + " AS " + Sanitize(name)
  }

  /** The lists the property loop fills. */
  datatype Lists = Lists(select: seq<string>, columns: seq<string>, metricRefs: seq<string>, virtualProps: seq<string>)

  /** The branches of the loop body. */
  function AddProperty(l: Lists, prop: Property, name: string): Lists {
    if prop.metricRef != "" then l.(metricRefs := l.metricRefs + [name])
    else if prop.availability == "planned" then l
    else if prop.availability == "virtual" && prop.expression == "" then l.(virtualProps := l.virtualProps + [name])
    else l.(select := l.select + [ColumnText(prop, name)], columns := l.columns + [name])
  }

  function SelectList(ot: ObjectType, columns: seq<string>): seq<string>
    requires forall name :: name in columns ==> name in ot.properties
  {
    seq(|columns|, i requires 0 <= i < |columns| => ColumnText(ot.properties[columns[i]], columns[i]))
  }

  /** Each list holds, once each, the properties of its kind among those visited. */
  ghost predicate Covers(ot: ObjectType, done: set<string>, l: Lists) {
    && multiset(l.columns) == multiset(Names(ot, IsColumn) * done)
    && multiset(l.metricRefs) == multiset(Names(ot, IsMetric) * done)
    && multiset(l.virtualProps) == multiset(Names(ot, IsVirtual) * done)
    && (forall name :: name in l.columns ==> name in ot.properties)
    && l.select == SelectList(ot, l.columns)
  }

  lemma CoversStep(ot: ObjectType, done: set<string>, l: Lists, name: string)
    requires Covers(ot, done, l) && name in ot.properties && name !in done
    ensures Covers(ot, done + {name}, AddProperty(l, ot.properties[name], name))
  {
    var p := ot.properties[name];
    var l' := AddProperty(l, p, name);
    ExtendNames(Names(ot, IsColumn), done, name);
    ExtendNames(Names(ot, IsMetric), done, name);
    ExtendNames(Names(ot, IsVirtual), done, name);
    assert name in Names(ot, IsColumn) <==> IsColumn(p);
    assert name in Names(ot, IsMetric) <==> IsMetric(p);
    assert name in Names(ot, IsVirtual) <==> IsVirtual(p);
    assert multiset(l'.columns) == multiset(l.columns) + (if IsColumn(p) then multiset{name} else multiset{});
    assert multiset(l'.metricRefs) == multiset(l.metricRefs) + (if IsMetric(p) then multiset{name} else multiset{});
    assert multiset(l'.virtualProps)
        == multiset(l.virtualProps) + (if IsVirtual(p) then multiset{name} else multiset{});
    SelectListGrows(ot, l.columns, name);
  }

  lemma SelectListGrows(ot: ObjectType, columns: seq<string>, name: string)
    requires (forall c :: c in columns ==> c in ot.properties) && name in ot.properties
    ensures SelectList(ot, columns + [name]) == SelectList(ot, columns) + [ColumnText(ot.properties[name], name)]
  {
  }

  /**
    Which property lands where: metric references first, planned ones nowhere, virtual ones only with an
    expression.
   */
  lemma KindsAre(ot: ObjectType, l: Lists, name: string)
    requires Covers(ot, ot.properties.Keys, l) && name in ot.properties
    ensures var p := ot.properties[name];
      && (name in l.metricRefs <==> p.metricRef != "")
      && (name in l.virtualProps <==> p.metricRef == "" && p.availability == "virtual" && p.expression == "")
      && (name in l.columns <==>
            p.metricRef == "" && p.availability != "planned" && (p.availability == "virtual" ==> p.expression != ""))
  {
    assert name in multiset(l.metricRefs) <==> name in Names(ot, IsMetric);
    assert name in multiset(l.virtualProps) <==> name in Names(ot, IsVirtual);
    assert name in multiset(l.columns) <==> name in Names(ot, IsColumn);
  }

  /** The property loop, in whatever order the map is iterated. */
  method CompileColumns(ot: ObjectType) returns (l: Lists)
    ensures Covers(ot, ot.properties.Keys, l)
  {
    l := Lists([], [], [], []);
    var pending := ot.properties.Keys;
    CoversNone(ot);
    assert ot.properties.Keys - pending == {};
    while pending != {}
      invariant pending <= ot.properties.Keys
      invariant Covers(ot, ot.properties.Keys - pending, l)
    {
      var name :| name in pending;
      CoversStep(ot, ot.properties.Keys - pending, l, name);
      assert ot.properties.Keys - pending + {name} == ot.properties.Keys - (pending - {name});
      l := AddProperty(l, ot.properties[name], name);
      pending := pending - {name};
    }
    assert ot.properties.Keys - pending == ot.properties.Keys;
  }

  lemma CoversNone(ot: ObjectType)
    ensures Covers(ot, {}, Lists([], [], [], []))
  {
    assert forall names: set<string> :: names * {} == {};
  }

  lemma OneMoreFilter<V>(ot: ObjectType, filters: map<string, V>, order: seq<string>, key: string)
    requires forall k :: k in order + [key] ==> k in ot.properties && k in filters
    ensures ClausesFor(ot, order + [key]) == ClausesFor(ot, order) + [ClauseFor(ot, key)]
    ensures ArgsFor(filters, order + [key]) == ArgsFor(filters, order)[ParamName(key) := filters[key]]
  {
    assert (order + [key])[..|order|] == order;
    assert forall k :: k in order ==> k in order + [key];
  }

  /** The filter loop: conditions and parameters, for some visiting order. */
  method CompileFilters<V>(ot: ObjectType, filters: map<string, V>)
    returns (clauses: seq<Clause>, args: map<string, V>, ghost order: seq<string>)
    ensures Visits(ot, filters, order)
    ensures forall key :: key in order <==> key in filters && key in ot.properties && ot.properties[key].filterable
    ensures forall i, j :: 0 <= i < j < |order| ==> order[i] != order[j]
    ensures clauses == ClausesFor(ot, order) && args == ArgsFor(filters, order)
  {
    clauses, args, order := [], map[], [];
    var pending := filters.Keys;
    while pending != {}
      invariant pending <= filters.Keys
      invariant forall key :: key in order <==> Accepted(ot, filters, key) && key !in pending
      invariant forall i, j :: 0 <= i < j < |order| ==> order[i] != order[j]
      invariant clauses == ClausesFor(ot, order) && args == ArgsFor(filters, order)
    {
      var key :| key in pending;
      pending := pending - {key};
      if key !in ot.properties || !ot.properties[key].filterable {
        continue;
      }
      var param := SanitizeParamName(key);
      OneMoreFilter(ot, filters, order, key);
      clauses := clauses + [Clause(WithoutNul(ot.properties[key].sourceField), param)];
      args := args[param := filters[key]];
      order := order + [key];
    }
  }

  function JoinComma(parts: seq<string>): string {
    if parts == [] then "" else if |parts| == 1 then parts[0] else parts[0] + (", " + JoinComma(parts[1..]))
  }

  /** The select list: each column's expression, or its source field, under the column's name. */
  function SelectItems(ot: ObjectType, columns: seq<string>): seq<SelectItem>
    requires forall name :: name in columns ==> name in ot.properties
  {
    seq(|columns|, i requires 0 <= i < |columns| =>
      SelectItem(if ot.properties[columns[i]].expression != "" then ot.properties[columns[i]].expression
                 else ot.properties[columns[i]].sourceField,
                 WithoutNul(columns[i])))
  }

  /** The column of the i-th name. */
  lemma SelectItemIs(ot: ObjectType, columns: seq<string>, i: nat)
    requires (forall name :: name in columns ==> name in ot.properties) && i < |columns|
    ensures var p, item := ot.properties[columns[i]], SelectItems(ot, columns)[i];
      && item.name == WithoutNul(columns[i])
      && item.expression == if p.expression != "" then p.expression else p.sourceField
    ensures |SelectItems(ot, columns)| == |columns|
  {
  }

  lemma {:induction false} SelectListIs(ot: ObjectType, columns: seq<string>)
    requires forall name :: name in columns ==> name in ot.properties
    ensures JoinComma(SelectList(ot, columns)) == ItemsText(SelectItems(ot, columns))
  {
    if |columns| == 1 {
    } else if columns != [] {
      SelectListIs(ot, columns[1..]);
      assert SelectList(ot, columns)[1..] == SelectList(ot, columns[1..]);
      assert SelectItems(ot, columns)[1..] == SelectItems(ot, columns[1..]);
    }
  }

  /** What CompileSearchObjects promises about its result, for some visiting order of the filters. */
  ghost predicate Compiles<V>(ot: ObjectType, f: Filters<V>, upper: string -> string, q: CompiledQuery<V>,
                              order: seq<string>)
    requires forall name :: name in q.columns ==> name in ot.properties
  {
    && Visits(ot, f.filters, order)
    && q.args == ArgsFor(f.filters, order)
    && Covers(ot, ot.properties.Keys, Lists(SelectList(ot, q.columns), q.columns, q.metricRefs, q.virtualProps))
    && (var behind := FromText(ot.source) + WhereText(ClausesFor(ot, order));
        && q.sql == "SELECT " + JoinComma(SelectList(ot, q.columns)) + behind + OrderText(OrderingOf(ot, f, upper))
        && q.countSql == "SELECT COUNT(*)" + behind)
  }

  method CompileOrder<V>(ot: ObjectType, f: Filters<V>, upper: string -> string) returns (sql: string)
    ensures sql == OrderText(OrderingOf(ot, f, upper))
  {
    if f.sort == "" || f.sort !in ot.properties || !ot.properties[f.sort].searchable {
      return "";
    }
    var direction := upper(f.order);
    if direction != "ASC" && direction != "DESC" {
      direction := "ASC";
    }
    return " ORDER BY " + Sanitize(ot.properties[f.sort].sourceField) + " " + direction;
  }

  /** CompileSearchObjects for a known object type. */
  method CompileSearch<V>(ot: ObjectType, f: Filters<V>, upper: string -> string)
    returns (q: CompiledQuery<V>, ghost order: seq<string>)
    ensures (forall name :: name in q.columns ==> name in ot.properties) && Compiles(ot, f, upper, q, order)
    ensures var select := "SELECT " + ItemsText(SelectItems(ot, q.columns));
      && select <= q.sql
      && ReadRelation(q.sql[|select|..])
         == Some(Relation(WithoutNul(ot.source.schema), WithoutNul(ot.source.table), ClausesFor(ot, order),
                          OrderingOf(ot, f, upper)))
      && "SELECT COUNT(*)" <= q.countSql
      && ReadRelation(q.countSql[|"SELECT COUNT(*)"|..])
         == Some(Relation(WithoutNul(ot.source.schema), WithoutNul(ot.source.table), ClausesFor(ot, order), None))
  {
    var l := CompileColumns(ot);
    var clauses, args;
    clauses, args, order := CompileFilters(ot, f.filters);
    var orderSql := CompileOrder(ot, f, upper);
    var behind := FromText(ot.source) + WhereText(clauses);
    q := CompiledQuery("SELECT " + JoinComma(l.select) + behind + orderSql, "SELECT COUNT(*)" + behind,
                       args, l.columns, l.metricRefs, l.virtualProps);
    CompiledQueryReadsBack(ot, f, upper, q, order);
  }

  lemma OrderingIs<V>(ot: ObjectType, f: Filters<V>, upper: string -> string)
    ensures DirectionKnown(OrderingOf(ot, f, upper))
    ensures OrderingOf(ot, f, upper).Some? <==>
            f.sort != "" && f.sort in ot.properties && ot.properties[f.sort].searchable
    ensures OrderingOf(ot, f, upper).Some? ==>
              OrderingOf(ot, f, upper).value
              == Ordering(WithoutNul(ot.properties[f.sort].sourceField),
                          if upper(f.order) == "DESC" then "DESC" else "ASC")
  {
  }

  lemma ClausesHaveWords(ot: ObjectType, order: seq<string>)
    requires forall key :: key in order ==> key in ot.properties
    ensures forall c :: c in ClausesFor(ot, order) ==> IsWord(c.param)
  {
    forall c | c in ClausesFor(ot, order) ensures IsWord(c.param) {
      var i :| 0 <= i < |order| && ClausesFor(ot, order)[i] == c;
      ParamNameIsWord(order[i]);
    }
  }

  /**
    Both queries read back from their texts: behind the select list and behind COUNT(*) stand the
    object's schema and table and the same conditions, and the ordering only in the data query.
   */
  lemma CompiledQueryReadsBack<V>(ot: ObjectType, f: Filters<V>, upper: string -> string, q: CompiledQuery<V>,
                                  order: seq<string>)
    requires (forall name :: name in q.columns ==> name in ot.properties) && Compiles(ot, f, upper, q, order)
    ensures var select, clauses := "SELECT " + ItemsText(SelectItems(ot, q.columns)), ClausesFor(ot, order);
      && select <= q.sql
      && ReadRelation(q.sql[|select|..])
         == Some(Relation(WithoutNul(ot.source.schema), WithoutNul(ot.source.table), clauses, OrderingOf(ot, f, upper)))
      && "SELECT COUNT(*)" <= q.countSql
      && ReadRelation(q.countSql[|"SELECT COUNT(*)"|..])
         == Some(Relation(WithoutNul(ot.source.schema), WithoutNul(ot.source.table), clauses, None))
  {
    var clauses, ordering := ClausesFor(ot, order), OrderingOf(ot, f, upper);
    var select := "SELECT " + ItemsText(SelectItems(ot, q.columns));
    SelectListIs(ot, q.columns);
    ClausesHaveWords(ot, order);
    OrderingIs(ot, f, upper);
    RelationReadsBack(ot.source, clauses, ordering);
    RelationReadsBack(ot.source, clauses, None);
    BehindPrefix(select, FromText(ot.source), WhereText(clauses), OrderText(ordering));
    BehindPrefix("SELECT COUNT(*)", FromText(ot.source), WhereText(clauses), OrderText(None));
    assert q.countSql == q.countSql + OrderText(None);
  }

  lemma BehindPrefix(prefix: string, from: string, where: string, order: string)
    ensures var s := prefix + (from + where) + order;
      prefix <= s && s[|prefix|..] == from + (where + order)
  {
  }

  /** Without double quotes in the expressions, the select list reads back too, entry by entry. */
  lemma SelectListReadsBack<V>(ot: ObjectType, f: Filters<V>, upper: string -> string, q: CompiledQuery<V>,
                               order: seq<string>)
    requires (forall name :: name in q.columns ==> name in ot.properties) && Compiles(ot, f, upper, q, order)
    requires q.columns != []
    requires forall name :: name in q.columns ==>
               '"' !in ot.properties[name].expression && '"' !in ot.properties[name].sourceField
    ensures "SELECT " <= q.sql
    ensures exists rest :: ReadItems(q.sql[|"SELECT "|..]) == Some(Scan(SelectItems(ot, q.columns), rest))
  {
    var items := SelectItems(ot, q.columns);
    SelectListIs(ot, q.columns);
    forall item | item in items ensures '"' !in item.expression {
      var i :| 0 <= i < |items| && items[i] == item;
      assert q.columns[i] in q.columns;
    }
    var rest := FromText(ot.source) + (WhereText(ClausesFor(ot, order)) + OrderText(OrderingOf(ot, f, upper)));
    FromStartsWithBlank(ot.source, WhereText(ClausesFor(ot, order)) + OrderText(OrderingOf(ot, f, upper)));
    ItemsReadBack(items, rest);
    BehindSelect(ItemsText(items), FromText(ot.source), WhereText(ClausesFor(ot, order)),
                 OrderText(OrderingOf(ot, f, upper)));
  }

  lemma FromStartsWithBlank(source: Source, behind: string)
    ensures var rest := FromText(source) + behind; !StartsWith(rest, '"') && !(", " <= rest)
  {
    assert (FromText(source) + behind)[0] == ' ';
  }

  lemma BehindSelect(list: string, from: string, where: string, order: string)
    ensures var s := "SELECT " + list + (from + where) + order;
      "SELECT " <= s && s[|"SELECT "|..] == list + (from + (where + order))
  {
  }

  /** Every parameter the printed conditions mention is bound, and the conditions read back as compiled. */
  lemma CompiledParametersAreBound<V>(ot: ObjectType, f: Filters<V>, upper: string -> string, q: CompiledQuery<V>,
                                      order: seq<string>)
    requires (forall name :: name in q.columns ==> name in ot.properties) && Compiles(ot, f, upper, q, order)
    ensures var clauses, ordering := ClausesFor(ot, order), OrderingOf(ot, f, upper);
      && ScanWhere(WhereText(clauses) + OrderText(ordering)) == Some(Scan(clauses, OrderText(ordering)))
      && forall c :: c in clauses ==> IsWord(c.param) && c.param in q.args
  {
    var clauses := ClausesFor(ot, order);
    ArgsAreBound(f.filters, order);
    forall c | c in clauses ensures IsWord(c.param) && c.param in q.args {
      var i :| 0 <= i < |order| && clauses[i] == c;
      assert order[i] in order;
      ParamNameIsWord(order[i]);
    }
    WhereReadsBack(clauses, OrderingOf(ot, f, upper));
  }
}
