/**
  Governance redaction (internal/governance/redaction.go): which fields a role may see, and the
  sorted list of those it may not.
 */
module Redaction {
  import opened Wrappers

  datatype Entry = Entry(field: string, reason: string, rule: string)

  datatype Policy = Policy(classifications: map<string, string>, markings: map<string, string>, role: string)

  predicate MarkingHides(marking: string, role: string) {
    if marking == "PII" || marking == "FINANCIAL_INTERNAL" || marking == "RAW_DATA" then role != "admin"
    else marking == "OPERATIONAL_INTERNAL" && role == "viewer"
  }

  predicate ClassificationHides(classification: string, role: string) {
    if classification == "pii" then true
    else if classification == "sensitive" || classification == "derived_sensitive" then
      role == "viewer" || role == "agent_readonly"
    else classification == "internal" && role == "viewer"
  }

  /** checkMarking, then checkClassification: the first that hides the field gives the entry. */
  function Check(field: string, p: Policy): Option<Entry> {
    if field in p.markings && MarkingHides(p.markings[field], p.role) then
      Some(Entry(field, "marking: " + p.markings[field], p.markings[field]))
    else if field in p.classifications && ClassificationHides(p.classifications[field], p.role) then
      Some(Entry(field, "classification: " + p.classifications[field], p.classifications[field]))
    else None
  }

  predicate Visible(field: string, p: Policy) {
    Check(field, p).None?
  }

  /** Who may not see what, marking by marking and classification by classification. */
  lemma HiddenFrom(role: string)
    ensures forall m :: m in {"PII", "FINANCIAL_INTERNAL", "RAW_DATA"} ==> (MarkingHides(m, role) <==> role != "admin")
    ensures MarkingHides("OPERATIONAL_INTERNAL", role) <==> role == "viewer"
    ensures forall m :: m !in {"PII", "FINANCIAL_INTERNAL", "RAW_DATA", "OPERATIONAL_INTERNAL"} ==>
            !MarkingHides(m, role)
    ensures ClassificationHides("pii", role)
    ensures forall c :: c in {"sensitive", "derived_sensitive"} ==>
              (ClassificationHides(c, role) <==> role == "viewer" || role == "agent_readonly")
    ensures ClassificationHides("internal", role) <==> role == "viewer"
    ensures forall c :: c !in {"pii", "sensitive", "derived_sensitive", "internal"} ==> !ClassificationHides(c, role)
  {
  }

  /** The reason given for a hidden field: its marking if that hides it, otherwise its classification. */
  lemma ReasonGiven(field: string, p: Policy)
    ensures var byMarking := field in p.markings && MarkingHides(p.markings[field], p.role);
      var byClass := field in p.classifications && ClassificationHides(p.classifications[field], p.role);
      && (Visible(field, p) <==> !byMarking && !byClass)
      && (byMarking ==> Check(field, p) == Some(Entry(field, "marking: " + p.markings[field], p.markings[field])))
      && (byClass && !byMarking ==>
            Check(field, p) == Some(Entry(field, "classification: " + p.classifications[field],
                                          p.classifications[field])))
  {
  }

  // ---------------------------------------------------------------- the order of names

  /** Comparing names character by character. */
  predicate Less(a: string, b: string) {
    b != "" && (a == "" || a[0] < b[0] || (a[0] == b[0] && Less(a[1..], b[1..])))
  }

  /** Alphabetical: decided by the first character that differs, and a proper beginning comes first. */
  lemma {:induction false} LessIs(common: string, a: string, b: string)
    ensures Less(common + a, common + b) <==> Less(a, b)
    ensures a != "" && b != "" && a[0] != b[0] ==> (Less(a, b) <==> a[0] < b[0])
    ensures Less("", b) <==> b != ""
  {
    if common == "" {
      assert common + a == a && common + b == b;
    } else {
      assert (common + a)[1..] == common[1..] + a && (common + b)[1..] == common[1..] + b;
      LessIs(common[1..], a, b);
    }
  }

  lemma {:induction false} LessIsTotal(a: string, b: string)
    ensures !(Less(a, b) && Less(b, a)) && (Less(a, b) || Less(b, a) <==> a != b)
  {
    if a != "" && b != "" && a[0] == b[0] {
      LessIsTotal(a[1..], b[1..]);
      assert a == [a[0]] + a[1..] && b == [b[0]] + b[1..];
    }
  }

  lemma {:induction false} LessIsTransitive(a: string, b: string, c: string)
    requires Less(a, b) && Less(b, c)
    ensures Less(a, c)
  {
    if a != "" && a[0] == b[0] == c[0] {
      LessIsTransitive(a[1..], b[1..], c[1..]);
    }
  }

  predicate Ascending(entries: seq<Entry>) {
    forall i, j :: 0 <= i < j < |entries| ==> Less(entries[i].field, entries[j].field)
  }

  /** The hidden fields' entries, ascending: there is only one such list. */
  ghost predicate Report(fields: set<string>, p: Policy, entries: seq<Entry>) {
    && Ascending(entries)
    && (forall e :: e in entries ==> e.field in fields && Check(e.field, p) == Some(e))
    && (forall f :: f in fields && !Visible(f, p) ==> Check(f, p).value in entries)
  }

  lemma FirstIsLeast(entries: seq<Entry>, e: Entry)
    requires Ascending(entries) && e in entries
    ensures e == entries[0] || Less(entries[0].field, e.field)
  {
    var i :| 0 <= i < |entries| && entries[i] == e;
  }

  /** Two reports of the same fields are equal, so redaction does not depend on the map's order. */
  lemma {:induction false} ReportIsUnique(s: seq<Entry>, t: seq<Entry>)
    requires Ascending(s) && Ascending(t) && forall e :: e in s <==> e in t
    ensures s == t
    decreases |s|
  {
    assert s != [] ==> s[0] in s;
    assert t != [] ==> t[0] in t;
    assert s == [] <==> t == [];
    if s != [] {
      FirstIsLeast(s, t[0]);
      FirstIsLeast(t, s[0]);
      LessIsTotal(s[0].field, t[0].field);
      assert s[0] == t[0];
      forall e ensures e in s[1..] <==> e in t[1..] {
        RestOfAscending(s, e);
        RestOfAscending(t, e);
      }
      ReportIsUnique(s[1..], t[1..]);
      assert s == [s[0]] + s[1..] && t == [t[0]] + t[1..];
    }
  }

  lemma RestOfAscending(s: seq<Entry>, e: Entry)
    requires Ascending(s) && s != []
    ensures e in s[1..] <==> e in s && e != s[0]
  {
    assert s == [s[0]] + s[1..];
    LessIsTotal(s[0].field, s[0].field);
    if e in s[1..] {
      var i :| 0 <= i < |s| - 1 && s[1..][i] == e;
      assert s[i + 1] == e && Less(s[0].field, e.field);
    }
  }

  // ---------------------------------------------------------------- the implementation

  datatype Result = Result(properties: map<string, string>, redacted: seq<Entry>)

  method InsertByName(entries: seq<Entry>, e: Entry) returns (r: seq<Entry>)
    requires Ascending(entries) && forall x :: x in entries ==> x.field != e.field
    ensures Ascending(r) && forall x :: x in r <==> x in entries || x == e
    ensures |r| == |entries| + 1
  {
    var i := 0;
    while i < |entries| && Less(entries[i].field, e.field)
      invariant 0 <= i <= |entries|
      invariant forall j :: 0 <= j < i ==> Less(entries[j].field, e.field)
    {
      i := i + 1;
    }
    if i < |entries| {
      FromHereOn(entries, i, e);
    }
    r := entries[..i] + [e] + entries[i..];
    InsertedBetween(entries, i, e);
  }

  lemma InsertedBetween(entries: seq<Entry>, i: nat, e: Entry)
    requires Ascending(entries) && i <= |entries|
    requires forall j :: 0 <= j < i ==> Less(entries[j].field, e.field)
    requires forall j :: i <= j < |entries| ==> Less(e.field, entries[j].field)
    ensures var r := entries[..i] + [e] + entries[i..];
      Ascending(r) && forall x :: x in r <==> x in entries || x == e
  {
    assert entries == entries[..i] + entries[i..];
  }

  lemma FromHereOn(entries: seq<Entry>, i: nat, e: Entry)
    requires Ascending(entries) && i < |entries| && entries[i].field != e.field && !Less(entries[i].field, e.field)
    ensures forall j :: i <= j < |entries| ==> Less(e.field, entries[j].field)
  {
    LessIsTotal(entries[i].field, e.field);
    forall j | i < j < |entries| ensures Less(e.field, entries[j].field) {
      LessIsTransitive(e.field, entries[i].field, entries[j].field);
    }
  }

  predicate DifferentFields(entries: seq<Entry>) {
    forall i, j :: 0 <= i < j < |entries| ==> entries[i].field != entries[j].field
  }

  /** sort.Slice by name; by ReportIsUnique, names being different, any sorting algorithm gives this list. */
  method SortByName(entries: seq<Entry>) returns (r: seq<Entry>)
    requires DifferentFields(entries)
    ensures Ascending(r) && |r| == |entries| && forall e :: e in r <==> e in entries
  {
    r := [];
    for i := 0 to |entries|
      invariant Ascending(r) && |r| == i && forall e :: e in r <==> e in entries[..i]
    {
      assert entries[..i + 1] == entries[..i] + [entries[i]];
      r := InsertByName(r, entries[i]);
    }
    assert entries[..|entries|] == entries;
  }

  /** The entries of the hidden fields among those visited, in any order, each once. */
  ghost predicate Listed(fields: set<string>, p: Policy, entries: seq<Entry>) {
    && DifferentFields(entries)
    && (forall e :: e in entries ==> e.field in fields && Check(e.field, p) == Some(e))
    && (forall f :: f in fields && !Visible(f, p) ==> Check(f, p).value in entries)
  }

  lemma ListOneMore(fields: set<string>, p: Policy, entries: seq<Entry>, f: string)
    requires Listed(fields, p, entries) && f !in fields
    ensures Listed(fields + {f}, p, if Visible(f, p) then entries else entries + [Check(f, p).value])
  {
    if !Visible(f, p) {
      var e := Check(f, p).value;
      forall i | 0 <= i < |entries| ensures entries[i].field != e.field {
        assert entries[i] in entries;
      }
    }
  }

  function Kept(properties: map<string, string>, fields: set<string>, p: Policy): map<string, string> {
    map f | f in properties && f in fields && Visible(f, p) :: properties[f]
  }

  lemma KeptAre(properties: map<string, string>, p: Policy)
    ensures Kept(properties, properties.Keys, p) == map f | f in properties && Visible(f, p) :: properties[f]
  {
  }

  lemma KeepOneMore(properties: map<string, string>, fields: set<string>, p: Policy, f: string)
    requires f in properties && f !in fields
    ensures var before, after := Kept(properties, fields, p), Kept(properties, fields + {f}, p);
      if Visible(f, p) then after == before[f := properties[f]] && |after| == |before| + 1 else after == before
  {
    var before, after := Kept(properties, fields, p), Kept(properties, fields + {f}, p);
    if Visible(f, p) {
      assert after == before[f := properties[f]];
      assert after.Keys == before.Keys + {f};
      assert |after.Keys| == |after| && |before.Keys| == |before|;
    }
  }

  /** What the loop has made of the fields visited so far. */
  ghost predicate Split(properties: map<string, string>, done: set<string>, p: Policy,
                        filtered: map<string, string>, redacted: seq<Entry>) {
    && done <= properties.Keys
    && filtered == Kept(properties, done, p) && Listed(done, p, redacted)
    && |filtered| + |redacted| == |done|
  }

  /** One field of the loop: marking, then classification, otherwise kept. */
  method SplitField(properties: map<string, string>, ghost done: set<string>, p: Policy, f: string,
                    filtered: map<string, string>, redacted: seq<Entry>)
    returns (filtered': map<string, string>, redacted': seq<Entry>)
    requires Split(properties, done, p, filtered, redacted) && f in properties && f !in done
    ensures Split(properties, done + {f}, p, filtered', redacted')
  {
    KeepOneMore(properties, done, p, f);
    ListOneMore(done, p, redacted, f);
    var entry := Check(f, p);
    if entry.Some? {
      filtered', redacted' := filtered, redacted + [entry.value];
    } else {
      filtered', redacted' := filtered[f := properties[f]], redacted;
    }
  }

  lemma NothingSplit(properties: map<string, string>, p: Policy)
    ensures Split(properties, {}, p, map[], [])
  {
  }

  /** RedactObjectContext: kept and redacted fields partition the input, and kept values are unchanged. */
  method RedactObjectContext(properties: map<string, string>, p: Policy) returns (r: Result)
    ensures r.properties == Kept(properties, properties.Keys, p)
    ensures forall i, j :: 0 <= i < j < |r.redacted| ==> Less(r.redacted[i].field, r.redacted[j].field)
    ensures forall e :: e in r.redacted <==>
              e.field in properties && Check(e.field, p) == Some(e)
    ensures Report(properties.Keys, p, r.redacted)
    ensures |r.properties| + |r.redacted| == |properties|
  {
    var filtered: map<string, string> := map[];
    var redacted: seq<Entry> := [];
    var pending := properties.Keys;
    ghost var done: set<string> := {};
    NothingSplit(properties, p);
    while pending != {}
      invariant pending !! done && pending + done == properties.Keys
      invariant Split(properties, done, p, filtered, redacted)
    {
      var field :| field in pending;
      filtered, redacted := SplitField(properties, done, p, field, filtered, redacted);
      pending, done := pending - {field}, done + {field};
    }
    assert done == properties.Keys;
    redacted := SortByName(redacted);
    r := Result(filtered, redacted);
  }

  lemma NonEmptyHasElement(entries: seq<Entry>)
    ensures entries == [] || exists e :: e in entries
  {
    assert entries != [] ==> entries[0] in entries;
  }

  /** Redacting what is left redacts nothing and keeps it as it is. */
  lemma RedactingTwice(properties: map<string, string>, p: Policy, again: seq<Entry>)
    requires Report(Kept(properties, properties.Keys, p).Keys, p, again)
    ensures var once := Kept(properties, properties.Keys, p); Kept(once, once.Keys, p) == once && again == []
  {
    NonEmptyHasElement(again);
  }

  /** viewer, then agent_readonly, then any other role, then admin. */
  function Rank(role: string): nat {
    if role == "viewer" then 0 else if role == "agent_readonly" then 1 else if role == "admin" then 3 else 2
  }

  /** Under every classification and marking, the second role sees all that the first sees. */
  ghost predicate SeesAtLeast(role: string, lower: string) {
    forall f, p: Policy :: Visible(f, p.(role := lower)) ==> Visible(f, p.(role := role))
  }

  /** One role always sees what another sees exactly when its rank is no lower. */
  lemma VisibilityFollowsRank(role: string, lower: string)
    ensures SeesAtLeast(role, lower) <==> Rank(lower) <= Rank(role)
  {
    if Rank(lower) > Rank(role) {
      var p :=
        if Rank(role) == 0 then Policy(map[], map["f" := "OPERATIONAL_INTERNAL"], "")
        else if Rank(lower) == 2 then Policy(map["f" := "sensitive"], map[], "")
        else Policy(map[], map["f" := "PII"], "");
      assert Visible("f", p.(role := lower)) && !Visible("f", p.(role := role));
    }
  }
}
