/**
  The ORDER BY expressions a link may carry (internal/ontology/link_plan.go, validSortExpr):
  column names with an optional direction, separated by commas, blanks only where the pattern allows.
 */
module SortExpr {
  import opened Wrappers
  import opened SqlText

  const DIRECTIONS: seq<string> := ["ASC", "DESC", "asc", "desc"]

  datatype SortTerm = SortTerm(column: string, direction: Option<string>)

  // ---------------------------------------------------------------- the grammar

  /** ident ([ ]+ direction)? */
  datatype Item = Item(column: string, gap: nat, direction: Option<string>)

  /** item ([ ]*,[ ]* item)* */
  datatype SortText = Last(item: Item) | More(item: Item, before: nat, after: nat, rest: SortText)

  predicate ItemWellFormed(i: Item) {
    IsWord(i.column) && (i.direction.Some? ==> i.gap > 0 && i.direction.value in DIRECTIONS)
  }

  predicate WellFormed(t: SortText) {
    ItemWellFormed(t.item) && (t.More? ==> WellFormed(t.rest))
  }

  function ItemText(i: Item): string {
    i.column + (if i.direction.Some? then Blank(i.gap) + i.direction.value else "")
  }

  function Text(t: SortText): string {
    match t
    case Last(i) => ItemText(i)
    case More(i, before, after, rest) => ItemText(i) + (Blank(before) + ("," + (Blank(after) + Text(rest))))
  }

  function Terms(t: SortText): seq<SortTerm> {
    match t
    case Last(i) => [SortTerm(i.column, i.direction)]
    case More(i, _, _, rest) => [SortTerm(i.column, i.direction)] + Terms(rest)
  }

  lemma DirectionsAre(d: string)
    ensures d in DIRECTIONS <==> d == "ASC" || d == "DESC" || d == "asc" || d == "desc"
  {
    assert DIRECTIONS[0] == "ASC" && DIRECTIONS[1] == "DESC" && DIRECTIONS[2] == "asc" && DIRECTIONS[3] == "desc";
  }

  /** How an item is written and what it means: a column, or a column, blanks and a direction. */
  lemma ItemsAre(column: string, gap: nat, direction: string)
    ensures ItemText(Item(column, gap, None)) == column
    ensures ItemText(Item(column, gap, Some(direction))) == column + seq(gap, _ => ' ') + direction
    ensures Terms(Last(Item(column, gap, None))) == [SortTerm(column, None)]
    ensures Terms(Last(Item(column, gap, Some(direction)))) == [SortTerm(column, Some(direction))]
  {
    assert Blank(gap) == seq(gap, _ => ' ');
    assert column + (Blank(gap) + direction) == column + Blank(gap) + direction;
  }

  /** Items are separated by a comma, with blanks around it. */
  lemma ListsAre(item: Item, before: nat, after: nat, rest: SortText)
    ensures Text(Last(item)) == ItemText(item)
    ensures Text(More(item, before, after, rest))
         == ItemText(item) + (seq(before, _ => ' ') + ("," + (seq(after, _ => ' ') + Text(rest))))
    ensures Terms(More(item, before, after, rest)) == Terms(Last(item)) + Terms(rest)
  {
    assert Blank(before) == seq(before, _ => ' ') && Blank(after) == seq(after, _ => ' ');
  }

  /** The texts the regular expression accepts. */
  ghost predicate InGrammar(s: string) {
    exists t :: WellFormed(t) && Text(t) == s
  }

  // ---------------------------------------------------------------- the scanner

  /** [ ]+ direction */
  function ScanDirection(s: string): Option<Scan<string>> {
    var next := s[Blanks(s)..];
    var d := WordLength(next);
    if Blanks(s) > 0 && next[..d] in DIRECTIONS then Some(Scan(next[..d], next[d..])) else None
  }

  function ScanTerm(s: string): Option<Scan<SortTerm>> {
    if s == "" || !IsWordStart(s[0]) then None
    else
      var w := WordLength(s);
      match ScanDirection(s[w..])
      case None => Some(Scan(SortTerm(s[..w], None), s[w..]))
      case Some(Scan(direction, rest)) => Some(Scan(SortTerm(s[..w], Some(direction)), rest))
  }

  /** [ ]*,[ ]* : the text behind a comma. */
  function SkipComma(s: string): Option<string> {
    var next := s[Blanks(s)..];
    if StartsWith(next, ',') then Some(next[1..][Blanks(next[1..])..]) else None
  }

  lemma CommaShortens(s: string)
    ensures SkipComma(s).Some? ==> |SkipComma(s).value| < |s|
  {
  }

  function ScanSort(s: string): Option<Scan<seq<SortTerm>>>
    decreases |s|
  {
    match ScanTerm(s)
    case None => None
    case Some(Scan(term, rest)) =>
      match SkipComma(rest)
      case None => Some(Scan([term], rest))
      case Some(next) =>
        TermShortens(s);
        CommaShortens(rest);
        match ScanSort(next)
        case None => None
        case Some(Scan(terms, end)) => Some(Scan([term] + terms, end))
  }

  lemma TermShortens(s: string)
    ensures ScanTerm(s).Some? ==> |ScanTerm(s).value.rest| <= |s|
  {
  }

  /** isValidSort. */
  predicate IsValidSort(s: string) {
    s == "" || (ScanSort(s).Some? && ScanSort(s).value.rest == "")
  }

  /** The sort list a link resolves to: none for an empty or an invalid expression. */
  function ResolvedTerms(s: string): seq<SortTerm> {
    if s != "" && IsValidSort(s) then ScanSort(s).value.value else []
  }

  // ---------------------------------------------------------------- the scanner accepts the grammar

  /** Text that cannot continue a sort expression. */
  predicate Stops(rest: string) {
    && (rest == "" || rest[0] == ' ')
    && (var next := rest[Blanks(rest)..]; !StartsWith(next, ',') && next[..WordLength(next)] !in DIRECTIONS)
  }

  /** What may follow an item: the end of the expression, or blanks and a comma. */
  predicate Follows(rest: string) {
    Stops(rest) || StartsWith(rest[Blanks(rest)..], ',')
  }

  lemma DirectionIsWord(d: string)
    requires d in DIRECTIONS
    ensures d != "" && IsWordStart(d[0]) && forall c :: c in d ==> IsWordChar(c)
  {
    assert forall i :: 0 <= i < |DIRECTIONS| ==> DIRECTIONS[i] != "" && IsWord(DIRECTIONS[i]);
  }

  lemma EmptyIsNoDirection(s: string)
    ensures s[..0] !in DIRECTIONS
  {
    assert forall i :: 0 <= i < |DIRECTIONS| ==> DIRECTIONS[i] != "";
  }

  lemma DirectionReadsBack(gap: nat, d: string, rest: string)
    requires gap > 0 && d in DIRECTIONS && (rest == "" || !IsWordChar(rest[0]))
    ensures ScanDirection(Blank(gap) + (d + rest)) == Some(Scan(d, rest))
  {
    DirectionIsWord(d);
    BlanksOf(gap, d + rest);
    WordLengthOf(d, rest);
  }

  lemma NoDirectionFollows(rest: string)
    requires Follows(rest)
    ensures ScanDirection(rest) == None
  {
    var next := rest[Blanks(rest)..];
    if StartsWith(next, ',') {
      EmptyIsNoDirection(next);
    }
  }

  lemma ScanItem(i: Item, rest: string)
    requires ItemWellFormed(i) && Follows(rest)
    ensures ScanTerm(ItemText(i) + rest) == Some(Scan(SortTerm(i.column, i.direction), rest))
  {
    assert rest == "" || rest[0] == ' ' || rest[0] == ',';
    if i.direction.Some? {
      var behind := Blank(i.gap) + (i.direction.value + rest);
      Associate(i.column, Blank(i.gap), i.direction.value, rest);
      WordLengthOf(i.column, behind);
      DirectionReadsBack(i.gap, i.direction.value, rest);
    } else {
      assert ItemText(i) == i.column;
      WordLengthOf(i.column, rest);
      NoDirectionFollows(rest);
    }
  }

  /** Blanks, a comma and blanks lead to the next item. */
  lemma CommaReadsBack(before: nat, after: nat, tail: string)
    requires tail != "" && tail[0] != ' '
    ensures var behind := Blank(before) + ("," + (Blank(after) + tail));
      Follows(behind) && SkipComma(behind) == Some(tail)
  {
    var comma := "," + (Blank(after) + tail);
    BlanksOf(before, comma);
    BlanksOf(after, tail);
    assert comma[1..] == Blank(after) + tail;
  }

  lemma {:induction false} TextStartsWithWord(t: SortText)
    requires WellFormed(t)
    ensures Text(t) != "" && IsWordStart(Text(t)[0])
  {
    assert ItemText(t.item)[0] == t.item.column[0];
  }

  lemma ScanReadsMore(i: Item, before: nat, after: nat, tail: string, terms: seq<SortTerm>, end: string)
    requires ItemWellFormed(i) && tail != "" && tail[0] != ' '
    requires ScanSort(tail) == Some(Scan(terms, end))
    ensures ScanSort(ItemText(i) + (Blank(before) + ("," + (Blank(after) + tail))))
         == Some(Scan([SortTerm(i.column, i.direction)] + terms, end))
  {
    CommaReadsBack(before, after, tail);
    ScanItem(i, Blank(before) + ("," + (Blank(after) + tail)));
  }

  lemma ScanReadsLast(i: Item, rest: string)
    requires ItemWellFormed(i)
    requires Stops(rest)
    ensures ScanSort(ItemText(i) + rest) == Some(Scan([SortTerm(i.column, i.direction)], rest))
  {
    ScanItem(i, rest);
  }

  lemma MoreText(item: string, before: string, after: string, more: string, rest: string)
    ensures (item + (before + ("," + (after + more)))) + rest == item + (before + ("," + (after + (more + rest))))
  {
  }

  /** Every text of the grammar scans to its terms and the scan stops exactly at its end. */
  lemma {:induction false} ScanReadsText(t: SortText, rest: string)
    requires WellFormed(t) && Stops(rest)
    ensures ScanSort(Text(t) + rest) == Some(Scan(Terms(t), rest))
  {
    match t
    case Last(i) =>
      ScanReadsLast(i, rest);
    case More(i, before, after, more) =>
      ScanReadsText(more, rest);
      TextStartsWithWord(more);
      ScanReadsMore(i, before, after, Text(more) + rest, Terms(more), rest);
      MoreText(ItemText(i), Blank(before), Blank(after), Text(more), rest);
  }

  // ---------------------------------------------------------------- the grammar covers the scanner

  lemma ScannedDirection(s: string)
    requires ScanDirection(s).Some?
    ensures var Scan(d, rest) := ScanDirection(s).value;
      Blanks(s) > 0 && d in DIRECTIONS && s == Blank(Blanks(s)) + (d + rest)
  {
    var next := s[Blanks(s)..];
    BlanksFirst(s);
    assert next == next[..WordLength(next)] + next[WordLength(next)..];
  }

  lemma ScannedItem(s: string) returns (i: Item)
    requires ScanTerm(s).Some?
    ensures ItemWellFormed(i)
    ensures ScanTerm(s).value.value == SortTerm(i.column, i.direction)
    ensures s == ItemText(i) + ScanTerm(s).value.rest
  {
    var w := WordLength(s);
    var column, behind := s[..w], s[w..];
    assert s == column + behind;
    assert IsWord(column) by {
      assert forall c :: c in column ==> IsWordChar(c);
      assert column[0] == s[0];
    }
    match ScanDirection(behind)
    case None =>
      i := Item(column, 0, None);
      assert ItemText(i) == column;
    case Some(Scan(d, rest)) =>
      i := Item(column, Blanks(behind), Some(d));
      ScannedDirection(behind);
      Associate(column, Blank(i.gap), d, rest);
  }

  lemma ScannedComma(s: string)
    requires SkipComma(s).Some?
    ensures s == Blank(Blanks(s)) + ("," + (Blank(Blanks(s[Blanks(s) + 1..])) + SkipComma(s).value))
  {
    var next := s[Blanks(s)..];
    BlanksFirst(s);
    BlanksFirst(next[1..]);
    assert next == "," + next[1..] && next[1..] == s[Blanks(s) + 1..];
  }

  /** Whatever the scanner reads was written by the grammar. */
  lemma {:induction false} ScannedText(s: string) returns (t: SortText)
    requires ScanSort(s).Some?
    ensures WellFormed(t) && Terms(t) == ScanSort(s).value.value
    ensures s == Text(t) + ScanSort(s).value.rest
    decreases |s|
  {
    var i := ScannedItem(s);
    var rest := ScanTerm(s).value.rest;
    TermShortens(s);
    CommaShortens(rest);
    match SkipComma(rest)
    case None =>
      t := Last(i);
    case Some(next) =>
      var more := ScannedText(next);
      var n, m := Blanks(rest), Blanks(rest[Blanks(rest) + 1..]);
      t := More(i, n, m, more);
      ScannedComma(rest);
      MoreText(ItemText(i), Blank(n), Blank(m), Text(more), ScanSort(next).value.rest);
  }

  /** isValidSort accepts exactly the empty text and the texts of the grammar. */
  lemma ValidSortIsGrammar(s: string)
    ensures IsValidSort(s) <==> s == "" || InGrammar(s)
  {
    if s != "" && IsValidSort(s) {
      var t := ScannedText(s);
      assert Text(t) == s;
    }
    if t :| WellFormed(t) && Text(t) == s {
      EmptyIsNoDirection("");
      ScanReadsText(t, "");
      assert Text(t) + "" == s;
    }
  }

  /** A valid expression reads back to its terms inside a longer query. */
  lemma SortReadsBack(s: string, rest: string)
    requires s != "" && IsValidSort(s) && Stops(rest)
    ensures ScanSort(s + rest) == Some(Scan(ResolvedTerms(s), rest))
    ensures ResolvedTerms(s) != []
  {
    var t := ScannedText(s);
    ScanReadsText(t, rest);
    assert s == Text(t);
  }
}
