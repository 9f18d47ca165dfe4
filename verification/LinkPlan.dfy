/**
  The link compiler (internal/ontology/link_plan.go): prints one SELECT per link.  A parser for
  exactly these queries shows that nothing in a link can change what the query means: every field,
  table, key, sort term, limit and offset is read back as it was configured.
 */
module LinkPlan {
  import opened Wrappers
  import opened SqlText
  import opened SortExpr

  datatype Target = Target(schema: string, table: string, key: string)

  datatype Link = Link(name: string, targetType: string, cardinality: string, strategy: string,
                       target: Target, limit: int, sort: string, fields: seq<string>)

  datatype CompiledLink = CompiledLink(sql: string, args: seq<string>, linkName: string, targetType: string,
                                       cardinality: string)

  /** What a link query says; no fields stands for all of them. */
  datatype LinkQuery = LinkQuery(fields: seq<string>, schema: string, table: string, key: string,
                                 sort: seq<SortTerm>, limit: int, offset: int)

  // ---------------------------------------------------------------- printing

  function QuotedList(fields: seq<string>): string
    requires fields != []
  {
    if |fields| == 1 then Quote(fields[0]) else Quote(fields[0]) + (", " + QuotedList(fields[1..]))
  }

  function FieldsText(fields: seq<string>): string {
    if fields == [] then "*" else QuotedList(fields)
  }

  /** resolveSort. */
  function SortClause(sort: string): string {
    if sort == "" || !IsValidSort(sort) then "" else " ORDER BY " + sort
  }

  /** The query as the format string lays it out. */
  function QueryText(link: Link, limit: int, offset: int): string {
    "SELECT " + FieldsText(link.fields) + " FROM " + Quote(link.target.schema) + "." + Quote(link.target.table)
    + " WHERE " + Quote(link.target.key) + " = $1" + SortClause(link.sort)
    + " LIMIT " + PrintInt(limit) + " OFFSET " + PrintInt(offset)
  }

  /** The format string: what is printed where. */
  lemma QueryTextIs(link: Link, limit: int, offset: int)
    ensures FieldsText([]) == "*"
    ensures QueryText(link, limit, offset)
         == "SELECT " + FieldsText(link.fields)
            + " FROM " + Quote(link.target.schema) + "." + Quote(link.target.table)
            + " WHERE " + Quote(link.target.key) + " = $1"
            + (if link.sort != "" && IsValidSort(link.sort) then " ORDER BY " + link.sort else "")
            + " LIMIT " + PrintInt(limit) + " OFFSET " + PrintInt(offset)
  {
  }

  lemma FieldListIs(field: string, fields: seq<string>)
    requires fields != []
    ensures FieldsText([field]) == Quote(field)
            && FieldsText([field] + fields) == Quote(field) + ", " + FieldsText(fields)
  {
    assert ([field] + fields)[1..] == fields;
  }

  // ---------------------------------------------------------------- parsing

  function ScanFields(s: string): Option<Scan<seq<string>>>
    decreases |s|
  {
    match ScanQuoted(s)
    case None => None
    case Some(Scan(field, rest)) =>
      if |rest| >= |s| then None
      else match Skip(rest, ", ")
        case None => Some(Scan([field], rest))
        case Some(next) =>
          match ScanFields(next)
          case None => None
          case Some(Scan(fields, end)) => Some(Scan([field] + fields, end))
  }

  function ParseLimits(s: string, q: LinkQuery): Option<LinkQuery> {
    match Skip(s, " LIMIT ") case None => None case Some(s1) =>
    match ScanInt(s1) case None => None case Some(Scan(limit, s2)) =>
    match Skip(s2, " OFFSET ") case None => None case Some(s3) =>
    match ScanInt(s3) case None => None case Some(Scan(offset, s4)) =>
    if s4 == "" then Some(q.(limit := limit, offset := offset)) else None
  }

  function ParseOrder(s: string, q: LinkQuery): Option<LinkQuery> {
    match Skip(s, " ORDER BY ")
    case None => ParseLimits(s, q)
    case Some(s1) =>
      match ScanSort(s1)
      case None => None
      case Some(Scan(terms, s2)) => ParseLimits(s2, q.(sort := terms))
  }

  function ParseKey(s: string, q: LinkQuery): Option<LinkQuery> {
    match Skip(s, " WHERE ") case None => None case Some(s1) =>
    match ScanQuoted(s1) case None => None case Some(Scan(key, s2)) =>
    match Skip(s2, " = $1") case None => None case Some(s3) =>
    ParseOrder(s3, q.(key := key))
  }

  function ParseTable(s: string, q: LinkQuery): Option<LinkQuery> {
    match Skip(s, " FROM ") case None => None case Some(s1) =>
    match ScanQuoted(s1) case None => None case Some(Scan(schema, s2)) =>
    match Skip(s2, ".") case None => None case Some(s3) =>
    match ScanQuoted(s3) case None => None case Some(Scan(table, s4)) =>
    ParseKey(s4, q.(schema := schema, table := table))
  }

  /** Reads a link query; anything else is rejected. */
  function Parse(sql: string): Option<LinkQuery> {
    var none := LinkQuery([], "", "", "", [], 0, 0);
    match Skip(sql, "SELECT ") case None => None case Some(s1) =>
    if StartsWith(s1, '*') then ParseTable(s1[1..], none)
    else match ScanFields(s1)
      case None => None
      case Some(Scan(fields, s2)) => ParseTable(s2, none.(fields := fields))
  }

  // ---------------------------------------------------------------- reading each part back

  lemma {:induction false} FieldsReadBack(fields: seq<string>, rest: string)
    requires fields != [] && !StartsWith(rest, '"') && !(", " <= rest)
    ensures ScanFields(QuotedList(fields) + rest) == Some(Scan(fields, rest))
  {
    var s := QuotedList(fields) + rest;
    if |fields| == 1 {
      QuoteReadsBack(fields[0], rest);
      assert fields == [fields[0]];
    } else {
      var tail := QuotedList(fields[1..]) + rest;
      assert s == Quote(fields[0]) + (", " + tail);
      QuoteReadsBack(fields[0], ", " + tail);
      SkipFixed(", ", tail);
      FieldsReadBack(fields[1..], rest);
      assert fields == [fields[0]] + fields[1..];
    }
  }

  function LimitsText(limit: int, offset: int): string {
    " LIMIT " + (PrintInt(limit) + (" OFFSET " + PrintInt(offset)))
  }

  lemma LimitsReadBack(limit: int, offset: int, q: LinkQuery)
    ensures ParseLimits(LimitsText(limit, offset), q) == Some(q.(limit := limit, offset := offset))
  {
    var behind := " OFFSET " + PrintInt(offset);
    SkipFixed(" LIMIT ", PrintInt(limit) + behind);
    IntReadsBack(limit, behind);
    SkipFixed(" OFFSET ", PrintInt(offset));
    assert PrintInt(offset) + "" == PrintInt(offset);
    IntReadsBack(offset, "");
  }

  /** The LIMIT clause ends any sort expression: LIMIT is no direction. */
  lemma LimitsStopSort(limit: int, offset: int)
    ensures Stops(LimitsText(limit, offset))
  {
    var s := LimitsText(limit, offset);
    assert s[0] == ' ' && s[1] == 'L';
    var next := s[1..];
    assert Blanks(s) == 1 && next[0] == 'L';
    NoDirectionStartsWith(next, WordLength(next));
  }

  lemma NoDirectionStartsWith(s: string, n: nat)
    requires s != "" && s[0] == 'L' && n <= |s|
    ensures s[..n] !in DIRECTIONS
  {
    assert forall i :: 0 <= i < |DIRECTIONS| ==> DIRECTIONS[i] != "" && DIRECTIONS[i][0] != 'L';
    assert n > 0 ==> s[..n][0] == 'L';
  }

  lemma NoOrderReadsBack(limit: int, offset: int, q: LinkQuery)
    ensures ParseOrder(LimitsText(limit, offset), q) == Some(q.(limit := limit, offset := offset))
  {
    var limits := LimitsText(limit, offset);
    assert limits[1] == 'L';
    assert Skip(limits, " ORDER BY ") == None;
    LimitsReadBack(limit, offset, q);
  }

  lemma SomeOrderReadsBack(sort: string, limit: int, offset: int, q: LinkQuery)
    requires sort != "" && IsValidSort(sort)
    ensures ParseOrder(" ORDER BY " + (sort + LimitsText(limit, offset)), q)
         == Some(q.(sort := ResolvedTerms(sort), limit := limit, offset := offset))
  {
    var limits := LimitsText(limit, offset);
    LimitsStopSort(limit, offset);
    SortReadsBack(sort, limits);
    SkipFixed(" ORDER BY ", sort + limits);
    LimitsReadBack(limit, offset, q.(sort := ResolvedTerms(sort)));
  }

  lemma OrderReadsBack(sort: string, limit: int, offset: int, q: LinkQuery)
    requires q.sort == []
    ensures ParseOrder(SortClause(sort) + LimitsText(limit, offset), q)
         == Some(q.(sort := ResolvedTerms(sort), limit := limit, offset := offset))
  {
    var limits := LimitsText(limit, offset);
    if sort == "" || !IsValidSort(sort) {
      assert SortClause(sort) + limits == limits;
      NoOrderReadsBack(limit, offset, q);
    } else {
      Assoc(" ORDER BY ", sort, limits);
      SomeOrderReadsBack(sort, limit, offset, q);
    }
  }

  lemma KeyReadsBack(key: string, behind: string, q: LinkQuery)
    ensures ParseKey(" WHERE " + (Quote(key) + (" = $1" + behind)), q) == ParseOrder(behind, q.(key := key))
  {
    SkipFixed(" WHERE ", Quote(key) + (" = $1" + behind));
    QuoteReadsBack(key, " = $1" + behind);
    SkipFixed(" = $1", behind);
  }

  lemma TableReadsBack(schema: string, table: string, behind: string, q: LinkQuery)
    requires !StartsWith(behind, '"')
    ensures ParseTable(" FROM " + (Quote(schema) + ("." + (Quote(table) + behind))), q)
         == ParseKey(behind, q.(schema := schema, table := table))
  {
    SkipFixed(" FROM ", Quote(schema) + ("." + (Quote(table) + behind)));
    QuoteReadsBack(schema, "." + (Quote(table) + behind));
    SkipFixed(".", Quote(table) + behind);
    QuoteReadsBack(table, behind);
  }

  lemma SelectReadsBack(fields: seq<string>, behind: string)
    requires behind != "" && behind[0] == ' '
    ensures Parse("SELECT " + (FieldsText(fields) + behind))
         == ParseTable(behind, LinkQuery(fields, "", "", "", [], 0, 0))
  {
    SkipFixed("SELECT ", FieldsText(fields) + behind);
    if fields == [] {
      assert ("*" + behind)[1..] == behind;
    } else {
      FieldsReadBack(fields, behind);
      assert QuotedList(fields)[0] == '"';
    }
  }

  /** The format string, grouped from the right. */
  lemma QueryTextGrouped(link: Link, limit: int, offset: int)
    ensures var t := link.target;
      var order := SortClause(link.sort) + LimitsText(limit, offset);
      var where := " WHERE " + (Quote(t.key) + (" = $1" + order));
      var from := " FROM " + (Quote(t.schema) + ("." + (Quote(t.table) + where)));
      QueryText(link, limit, offset) == "SELECT " + (FieldsText(link.fields) + from)
  {
    var t := link.target;
    Regroup("SELECT ", FieldsText(link.fields), " FROM ", Quote(t.schema), ".", Quote(t.table), " WHERE ", Quote(t.key),
            " = $1", SortClause(link.sort), " LIMIT ", PrintInt(limit), " OFFSET ", PrintInt(offset));
  }

  lemma Assoc(a: string, b: string, c: string)
    ensures (a + b) + c == a + (b + c)
  {
  }

  lemma Regroup(a: string, b: string, c: string, d: string, e: string, f: string, g: string, h: string,
                i: string, j: string, k: string, l: string, m: string, n: string)
    ensures a + b + c + d + e + f + g + h + i + j + k + l + m + n
         == a + (b + (c + (d + (e + (f + (g + (h + (i + (j + (k + (l + (m + n))))))))))))
  {
    Regroup5(a + b + c + d + e + f + g + h + i, j, k, l, m, n);
    Regroup5(a + b + c + d, e, f, g, h, i + (j + (k + (l + (m + n)))));
    Regroup5(a, b, c, d, e + (f + (g + (h + (i + (j + (k + (l + (m + n)))))))), "");
    Assoc(a + b + c + d + e + f + g + h, i, j + (k + (l + (m + n))));
  }

  lemma Regroup5(x: string, a: string, b: string, c: string, d: string, e: string)
    ensures x + a + b + c + d + e == x + (a + (b + (c + (d + e))))
  {
    Assoc(x + a + b + c, d, e);
    Assoc(x + a + b, c, d + e);
    Assoc(x + a, b, c + (d + e));
    Assoc(x, a, b + (c + (d + e)));
  }

  /** What the query of a link must say; an invalid sort expression is dropped. */
  function Meaning(link: Link, limit: int, offset: int): LinkQuery {
    LinkQuery(link.fields, link.target.schema, link.target.table, link.target.key,
              ResolvedTerms(link.sort), limit, offset)
  }

  /** Printing and parsing back recovers everything, for all identifiers, sorts, limits and offsets. */
  lemma QueryReadsBack(link: Link, limit: int, offset: int)
    ensures Parse(QueryText(link, limit, offset)) == Some(Meaning(link, limit, offset))
    ensures Meaning(link, limit, offset).sort != [] <==> link.sort != "" && InGrammar(link.sort)
  {
    var t := link.target;
    var order := SortClause(link.sort) + LimitsText(limit, offset);
    var where := " WHERE " + (Quote(t.key) + (" = $1" + order));
    var from := " FROM " + (Quote(t.schema) + ("." + (Quote(t.table) + where)));
    QueryTextGrouped(link, limit, offset);
    SelectReadsBack(link.fields, from);
    var q := LinkQuery(link.fields, "", "", "", [], 0, 0);
    TableReadsBack(t.schema, t.table, where, q);
    KeyReadsBack(t.key, order, q.(schema := t.schema, table := t.table));
    OrderReadsBack(link.sort, limit, offset, q.(schema := t.schema, table := t.table, key := t.key));
    ValidSortIsGrammar(link.sort);
    if link.sort != "" && IsValidSort(link.sort) {
      LimitsStopSort(limit, offset);
      SortReadsBack(link.sort, LimitsText(limit, offset));
    }
  }

  /** Two links with the same query text mean the same query: no identifier can imitate another query. */
  lemma QueryTextDeterminesMeaning(a: Link, b: Link, limitA: int, offsetA: int, limitB: int, offsetB: int)
    requires QueryText(a, limitA, offsetA) == QueryText(b, limitB, offsetB)
    ensures Meaning(a, limitA, offsetA) == Meaning(b, limitB, offsetB)
  {
    QueryReadsBack(a, limitA, offsetA);
    QueryReadsBack(b, limitB, offsetB);
  }

  // ---------------------------------------------------------------- the compiler

  /** resolveFields: quotes every field, then joins them. */
  method ResolveFields(fields: seq<string>) returns (text: string)
    ensures text == FieldsText(fields)
  {
    if fields == [] {
      return "*";
    }
    var i := |fields| - 1;
    text := Quote(fields[i]);
    while i > 0
      invariant 0 <= i < |fields| && text == QuotedList(fields[i..])
    {
      i := i - 1;
      assert fields[i..][1..] == fields[i + 1..];
      text := Quote(fields[i]) + (", " + text);
    }
    assert fields[0..] == fields;
  }

  datatype CompileError = UnknownStrategy | MissingTemplate | InvalidTemplate

  predicate IsKeyStrategy(strategy: string) {
    strategy == "direct_key" || strategy == "lookup" || strategy == "reverse_lookup" || strategy == "bridge_table"
  }

  /** The plan of a link with a given query: the source object's id is the only argument. */
  function PlanFor(sql: string, objectId: string, link: Link): CompiledLink {
    CompiledLink(sql, [objectId], link.name, link.targetType, link.cardinality)
  }

  /** compileDirectKey, compileReverseLookup and compileBridgeTable, which print the same query. */
  method CompileKeyLink(objectId: string, link: Link, limit: int, offset: int) returns (c: CompiledLink)
    ensures c == PlanFor(QueryText(link, limit, offset), objectId, link)
    ensures Parse(c.sql) == Some(Meaning(link, limit, offset))
  {
    var fields := ResolveFields(link.fields);
    var sql := "SELECT " + fields + " FROM " + Quote(link.target.schema) + "." + Quote(link.target.table)
      + " WHERE " + Quote(link.target.key) + " = $1" + SortClause(link.sort)
      + " LIMIT " + PrintInt(limit) + " OFFSET " + PrintInt(offset);
    QueryReadsBack(link, limit, offset);
    return CompiledLink(sql, [objectId], link.name, link.targetType, link.cardinality);
  }

  // ---------------------------------------------------------------- query templates

  /** Which templates pass validation, and how texts are upper-cased: any two functions will do. */
  datatype Library = Library(acceptable: string -> bool, upper: string -> string)

  predicate Mentions(s: string, word: string) {
    exists i :: 0 <= i <= |s| && word <= s[i..]
  }

  /** The word stands at position i, and no word character touches it. */
  predicate WordAt(s: string, word: string, i: nat)
    requires i <= |s|
  {
    && word <= s[i..]
    && (i > 0 ==> !IsWordChar(s[i - 1]))
    && (i + |word| < |s| ==> !IsWordChar(s[i + |word|]))
  }

  /** A word is mentioned wherever it is written, and stands by itself between no word characters, or at either end. */
  lemma WordsAre(before: string, word: string, after: string)
    ensures Mentions(before + word + after, word)
    ensures WordAt(before + word + after, word, |before|) <==>
              && (before == "" || !IsWordChar(before[|before| - 1]))
              && (after == "" || !IsWordChar(after[0]))
  {
    var s := before + word + after;
    assert s[|before|..] == word + after;
  }

  lemma MentionedWhere(s: string, word: string)
    ensures Mentions(s, word) ==> exists before, after :: s == before + word + after
  {
    if i :| 0 <= i <= |s| && word <= s[i..] {
      assert s == s[..i] + word + s[i..][|word|..];
    }
  }

  /** A LIMIT clause calls for the word by itself, not for a part of another. */
  predicate HasLimitClause(template: string, lib: Library) {
    var s := lib.upper(template);
    exists i: nat :: i <= |s| && WordAt(s, "LIMIT", i)
  }

  /** Sort and limits are appended to a template unless LIMIT occurs anywhere in it, upper-cased. */
  function TemplateQuery(link: Link, limit: int, offset: int, lib: Library): string {
    var template := link.target.key;
    if Mentions(lib.upper(template), "LIMIT") then template
    else template + SortClause(link.sort) + " LIMIT " + PrintInt(limit) + " OFFSET " + PrintInt(offset)
  }

  /** The configured sort, limit and offset stand behind the template and read back as such. */
  predicate Paged(sql: string, link: Link, limit: int, offset: int) {
    && link.target.key <= sql
    && ParseOrder(sql[|link.target.key|..], NO_QUERY)
       == Some(NO_QUERY.(sort := ResolvedTerms(link.sort), limit := limit, offset := offset))
  }

  const NO_QUERY := LinkQuery([], "", "", "", [], 0, 0)

  lemma AppendedIsPaged(link: Link, limit: int, offset: int)
    ensures Paged(link.target.key + SortClause(link.sort) + " LIMIT " + PrintInt(limit) + " OFFSET " + PrintInt(offset),
                  link, limit, offset)
  {
    var template := link.target.key;
    var sql := template + SortClause(link.sort) + " LIMIT " + PrintInt(limit) + " OFFSET " + PrintInt(offset);
    Regroup5(template + SortClause(link.sort), " LIMIT ", PrintInt(limit), " OFFSET ", PrintInt(offset), "");
    Assoc(template, SortClause(link.sort), LimitsText(limit, offset));
    assert PrintInt(offset) + "" == PrintInt(offset);
    assert sql == template + (SortClause(link.sort) + LimitsText(limit, offset));
    assert sql[|template|..] == SortClause(link.sort) + LimitsText(limit, offset);
    OrderReadsBack(link.sort, limit, offset, NO_QUERY);
  }

  lemma BareIsNotPaged(link: Link, limit: int, offset: int)
    ensures !Paged(link.target.key, link, limit, offset)
  {
    assert link.target.key[|link.target.key|..] == "";
  }

  /** What is documented: a template with a LIMIT clause is taken as it is, any other is paged. */
  predicate PagedAsDocumented(sql: string, link: Link, limit: int, offset: int, lib: Library) {
    if HasLimitClause(link.target.key, lib) then sql == link.target.key else Paged(sql, link, limit, offset)
  }

  /** The query is as documented exactly when LIMIT occurs nowhere in the template or somewhere as a word by itself. */
  lemma PagedAsDocumentedIff(link: Link, limit: int, offset: int, lib: Library)
    ensures PagedAsDocumented(TemplateQuery(link, limit, offset, lib), link, limit, offset, lib)
            <==> !Mentions(lib.upper(link.target.key), "LIMIT") || HasLimitClause(link.target.key, lib)
  {
    AppendedIsPaged(link, limit, offset);
    BareIsNotPaged(link, limit, offset);
  }

  function UpperChar(c: char): char {
    if 'a' <= c <= 'z' then 'A' + (c - 'a') else c
  }

  /** Upper case for ASCII text. */
  function AsciiUpper(s: string): string {
    seq(|s|, i requires 0 <= i < |s| => UpperChar(s[i]))
  }

  const RATE_TEMPLATE := "SELECT rate_limit, $1"
  const RATE_UPPER := "SELECT RATE_LIMIT, $1"

  lemma RateUpper()
    ensures AsciiUpper(RATE_TEMPLATE) == RATE_UPPER
  {
  }

  /** LIMIT occurs there in one place only, behind an underscore. */
  lemma RateOccurrence(i: nat)
    requires i <= |RATE_UPPER| && "LIMIT" <= RATE_UPPER[i..]
    ensures i == 12
  {
    var found := RATE_UPPER[i..];
    assert found[0] == 'L' && found[1] == 'I';
    assert RATE_UPPER[i] == 'L' && RATE_UPPER[i + 1] == 'I';
  }

  lemma RateHasNoLimitClause(lib: Library)
    requires lib.upper(RATE_TEMPLATE) == RATE_UPPER
    ensures Mentions(lib.upper(RATE_TEMPLATE), "LIMIT") && !HasLimitClause(RATE_TEMPLATE, lib)
  {
    assert "LIMIT" <= RATE_UPPER[12..];
    forall i: nat | i <= |RATE_UPPER| ensures !WordAt(RATE_UPPER, "LIMIT", i) {
      if "LIMIT" <= RATE_UPPER[i..] {
        RateOccurrence(i);
        assert RATE_UPPER[11] == '_';
      }
    }
  }

  /** A column called rate_limit is enough for the configured limit to be dropped. */
  lemma LimitInsideWordDropsPaging(link: Link, limit: int, offset: int, acceptable: string -> bool)
    requires link.target.key == RATE_TEMPLATE
    ensures var lib := Library(acceptable, AsciiUpper);
      var sql := TemplateQuery(link, limit, offset, lib);
      sql == link.target.key && !HasLimitClause(sql, lib) && !PagedAsDocumented(sql, link, limit, offset, lib)
  {
    var lib := Library(acceptable, AsciiUpper);
    RateUpper();
    RateHasNoLimitClause(lib);
    PagedAsDocumentedIff(link, limit, offset, lib);
  }

  /** compileQueryRef. */
  method CompileQueryRef(objectId: string, link: Link, limit: int, offset: int, lib: Library)
    returns (r: Result<CompiledLink, CompileError>)
    ensures r == Err(MissingTemplate) <==> link.target.key == ""
    ensures r == Err(InvalidTemplate) <==> link.target.key != "" && !lib.acceptable(link.target.key)
    ensures r.Ok? <==> link.target.key != "" && lib.acceptable(link.target.key)
    ensures r.Ok? ==> r.value == PlanFor(TemplateQuery(link, limit, offset, lib), objectId, link)
    ensures r.Ok? && !Mentions(lib.upper(link.target.key), "LIMIT") ==> Paged(r.value.sql, link, limit, offset)
    ensures r.Ok? && HasLimitClause(link.target.key, lib) ==> r.value.sql == link.target.key
  {
    if link.target.key == "" {
      return Err(MissingTemplate);
    }
    var sql := link.target.key;
    if !lib.acceptable(sql) {
      return Err(InvalidTemplate);
    }
    if !Mentions(lib.upper(sql), "LIMIT") {
      AppendedIsPaged(link, limit, offset);
      sql := sql + SortClause(link.sort) + " LIMIT " + PrintInt(limit) + " OFFSET " + PrintInt(offset);
    }
    return Ok(CompiledLink(sql, [objectId], link.name, link.targetType, link.cardinality));
  }

  // ---------------------------------------------------------------- one link, any strategy

  lemma StrategiesAre(strategy: string)
    ensures IsKeyStrategy(strategy) <==>
              strategy == "direct_key" || strategy == "lookup" || strategy == "reverse_lookup"
                  || strategy == "bridge_table"
  {
  }

  /** compileLink. */
  method CompileLink(objectId: string, link: Link, limit: int, offset: int, lib: Library)
    returns (r: Result<CompiledLink, CompileError>)
    ensures r.Ok? ==> r.value.args == [objectId] && r.value.linkName == link.name
                      && r.value.targetType == link.targetType && r.value.cardinality == link.cardinality
    ensures link.strategy == "direct_key" || link.strategy == "lookup" || link.strategy == "reverse_lookup"
            || link.strategy == "bridge_table" ==>
              && r.Ok?
              && Parse(r.value.sql) == Some(LinkQuery(link.fields, link.target.schema, link.target.table,
                                                      link.target.key, ResolvedTerms(link.sort), limit, offset))
    ensures link.strategy == "query_ref" ==> (r.Ok? <==> link.target.key != "" && lib.acceptable(link.target.key))
    ensures link.strategy == "query_ref" && r.Ok? ==> r.value.sql == TemplateQuery(link, limit, offset, lib)
    ensures r == Err(UnknownStrategy) <==>
              link.strategy !in {"direct_key", "lookup", "reverse_lookup", "bridge_table", "query_ref"}
  {
    StrategiesAre(link.strategy);
    if IsKeyStrategy(link.strategy) {
      var plan := CompileKeyLink(objectId, link, limit, offset);
      return Ok(plan);
    }
    if link.strategy == "query_ref" {
      r := CompileQueryRef(objectId, link, limit, offset, lib);
      return;
    }
    return Err(UnknownStrategy);
  }
}
