/**
  Evidence templates (internal/ontology/evidence_renderer.go): known {placeholders} are replaced by
  values in one pass, then a regular expression turns every placeholder that is left into "N/A".

  The values come from a map, so the pairs given to strings.NewReplacer stand in an arbitrary order.
 */
module Evidence {
  import opened Wrappers

  const MISSING := "N/A"

  /** The first closing brace. */
  function CloseAt(s: string): (n: nat)
    requires '}' in s
    ensures n < |s| && s[n] == '}' && forall i :: 0 <= i < n ==> s[i] != '}'
  {
    if s[0] == '}' then 0
    else
      assert s == [s[0]] + s[1..];
      1 + CloseAt(s[1..])
  }

  function Placeholder(key: string): string {
    "{" + key + "}"
  }

  // ---------------------------------------------------------------- the two passes

  datatype Pair = Pair(placeholder: string, replacement: string)

  /** strings.Replacer compares the old strings in argument order. */
  function FirstMatch(pairs: seq<Pair>, s: string): Option<Pair> {
    if pairs == [] then None
    else if pairs[0].placeholder <= s then Some(pairs[0])
    else FirstMatch(pairs[1..], s)
  }

  /** strings.Replacer: left to right, without overlaps; no old string is empty here. */
  function Replace(pairs: seq<Pair>, s: string): string
    decreases |s|
  {
    if s == "" then ""
    else match FirstMatch(pairs, s)
      case Some(p) => if 0 < |p.placeholder| <= |s| then p.replacement + Replace(pairs, s[|p.placeholder|..]) else s
      case None => [s[0]] + Replace(pairs, s[1..])
  }

  /** Replacing every match of \{[^}]*\}: from an opening brace to the next closing one. */
  function ReplaceMissing(s: string): string
    decreases |s|
  {
    if s == "" then ""
    else if s[0] == '{' && '}' in s then MISSING + ReplaceMissing(s[CloseAt(s) + 1..])
    else [s[0]] + ReplaceMissing(s[1..])
  }

  // ---------------------------------------------------------------- the order of the pairs

  ghost predicate Visits(params: map<string, string>, order: seq<string>) {
    forall key :: key in order <==> key in params
  }

  function PairsFor(params: map<string, string>, order: seq<string>): seq<Pair>
    requires forall key :: key in order ==> key in params
  {
    seq(|order|, i requires 0 <= i < |order| => Pair(Placeholder(order[i]), params[order[i]]))
  }

  predicate PlainKeys(params: map<string, string>) {
    forall key :: key in params ==> '}' !in key
  }

  /** The known placeholder a text starts with. */
  function KeyAt(params: map<string, string>, s: string): Option<string> {
    if s != "" && s[0] == '{' && '}' in s && s[1..CloseAt(s)] in params then Some(s[1..CloseAt(s)]) else None
  }

  /** The first pass without any order: substitute the placeholder a position starts with. */
  function Substitute(params: map<string, string>, s: string): string
    decreases |s|
  {
    if s == "" then ""
    else match KeyAt(params, s)
      case Some(key) => params[key] + Substitute(params, s[CloseAt(s) + 1..])
      case None => [s[0]] + Substitute(params, s[1..])
  }

  /** A key without closing braces matches only where the text spells it out up to the next closing brace. */
  lemma PlaceholderMatches(key: string, s: string)
    requires '}' !in key
    ensures Placeholder(key) <= s <==> s != "" && s[0] == '{' && '}' in s && s[1..CloseAt(s)] == key
  {
    var p := Placeholder(key);
    if p <= s {
      assert s[|p| - 1] == '}';
      var n := CloseAt(s);
      assert forall i :: 0 <= i < |p| - 1 ==> s[i] == p[i] && (i > 0 ==> p[i] == key[i - 1] && key[i - 1] in key);
      assert n == |p| - 1;
      assert s[1..n] == key;
    }
    if s != "" && s[0] == '{' && '}' in s && s[1..CloseAt(s)] == key {
      var n := CloseAt(s);
      assert s[..n + 1] == "{" + s[1..n] + "}";
    }
  }

  lemma {:induction false} FirstMatchIsKeyAt(params: map<string, string>, order: seq<string>, s: string)
    requires (forall key :: key in order ==> key in params) && PlainKeys(params)
    ensures FirstMatch(PairsFor(params, order), s)
         == match KeyAt(params, s)
            case Some(key) => if key in order then Some(Pair(Placeholder(key), params[key])) else None
            case None => None
  {
    var pairs := PairsFor(params, order);
    if order != [] {
      PlaceholderMatches(order[0], s);
      assert pairs[1..] == PairsFor(params, order[1..]);
      FirstMatchIsKeyAt(params, order[1..], s);
      assert order == [order[0]] + order[1..];
    }
  }

  /** With keys free of closing braces the first pass does not depend on the order of the pairs. */
  lemma {:induction false} ReplaceIsSubstitute(params: map<string, string>, order: seq<string>, s: string)
    requires Visits(params, order) && PlainKeys(params)
    ensures Replace(PairsFor(params, order), s) == Substitute(params, s)
    decreases |s|
  {
    if s != "" {
      FirstMatchIsKeyAt(params, order, s);
      match KeyAt(params, s)
      case Some(key) =>
        PlaceholderMatches(key, s);
        assert |Placeholder(key)| == CloseAt(s) + 1;
        ReplaceIsSubstitute(params, order, s[CloseAt(s) + 1..]);
      case None =>
        ReplaceIsSubstitute(params, order, s[1..]);
    }
  }

  lemma {:induction false} NothingMatchesHere(pairs: seq<Pair>, s: string)
    requires s != "" && s[0] != '{' && forall p :: p in pairs ==> p.placeholder != "" && p.placeholder[0] == '{'
    ensures FirstMatch(pairs, s) == None
  {
    if pairs != [] {
      assert pairs[0] in pairs;
      NothingMatchesHere(pairs[1..], s);
    }
  }

  /** A key with a closing brace makes the result depend on the map's iteration order: the first pair that fits wins. */
  lemma OrderMattersForOddKeys()
    ensures var params := map["a" := "1", "a}b" := "2"];
      && Visits(params, ["a", "a}b"]) && Visits(params, ["a}b", "a"])
      && Replace(PairsFor(params, ["a", "a}b"]), "{a}b}") == "1b}"
      && Replace(PairsFor(params, ["a}b", "a"]), "{a}b}") == "2"
  {
    var params := map["a" := "1", "a}b" := "2"];
    var p1, p2 := Pair("{a}", "1"), Pair("{a}b}", "2");
    assert Placeholder("a") == "{a}" && Placeholder("a}b") == "{a}b}";
    assert PairsFor(params, ["a", "a}b"]) == [p1, p2] && PairsFor(params, ["a}b", "a"]) == [p2, p1];
    assert FirstMatch([p1, p2], "{a}b}") == Some(p1);
    assert FirstMatch([p2, p1], "{a}b}") == Some(p2);
    assert "{a}b}"[3..] == "b}" && "{a}b}"[5..] == "" && "b}"[1..] == "}" && "}"[1..] == "";
    NothingMatchesHere([p1, p2], "b}");
    NothingMatchesHere([p1, p2], "}");
    assert Replace([p1, p2], "}") == "}" && Replace([p1, p2], "b}") == "b}";
  }

  // ---------------------------------------------------------------- the implementation

  /** What rendering yields for keys without closing braces. */
  function Rendered(template: string, params: map<string, string>): string {
    ReplaceMissing(Substitute(params, template))
  }

  lemma {:induction false} NothingToReplace(s: string, params: map<string, string>)
    requires '{' !in s
    ensures Substitute(params, s) == s && ReplaceMissing(s) == s
  {
    if s != "" {
      assert s == [s[0]] + s[1..];
      assert s[0] in s;
      NothingToReplace(s[1..], params);
    }
  }

  /** RenderEvidence, with the values already formatted. */
  method RenderEvidence(template: string, params: map<string, string>)
    returns (result: string, ghost order: seq<string>)
    ensures Visits(params, order)
    ensures '{' in template ==> result == ReplaceMissing(Replace(PairsFor(params, order), template))
    ensures '{' !in template ==> result == template
    ensures PlainKeys(params) ==> result == Rendered(template, params)
  {
    order := [];
    var pairs: seq<Pair> := [];
    var pending := params.Keys;
    while pending != {}
      invariant pending <= params.Keys
      invariant forall key :: key in order <==> key in params && key !in pending
      invariant pairs == PairsFor(params, order)
    {
      var key :| key in pending;
      pending := pending - {key};
      pairs := pairs + [Pair("{" + key + "}", params[key])];
      order := order + [key];
    }
    if '{' !in template {
      NothingToReplace(template, params);
      return template, order;
    }
    if PlainKeys(params) {
      ReplaceIsSubstitute(params, order, template);
    }
    result := ReplaceMissing(Replace(pairs, template));
  }

  // ---------------------------------------------------------------- no placeholder is left

  lemma {:induction false} NoCloseNoChange(s: string)
    requires '}' !in s
    ensures ReplaceMissing(s) == s
  {
    if s != "" {
      assert s == [s[0]] + s[1..];
      NoCloseNoChange(s[1..]);
    }
  }

  /** For every input, no opening brace of the result is followed by a closing one. */
  lemma {:induction false} NoPlaceholderLeft(s: string)
    ensures forall i, j :: 0 <= i < j < |ReplaceMissing(s)| ==>
            !(ReplaceMissing(s)[i] == '{' && ReplaceMissing(s)[j] == '}')
    decreases |s|
  {
    if s != "" {
      if s[0] == '{' && '}' in s {
        NoPlaceholderLeft(s[CloseAt(s) + 1..]);
      } else {
        NoPlaceholderLeft(s[1..]);
        if s[0] == '{' {
          NoCloseNoChange(s);
          assert forall j :: 0 <= j < |s| ==> s[j] in s;
        }
      }
    }
  }

  // ---------------------------------------------------------------- templates as segments

  datatype Segment = Literal(text: string) | Hole(name: string)

  /** Literals without opening braces and hole names without any brace. */
  predicate SegmentWellFormed(s: Segment) {
    match s
    case Literal(text) => '{' !in text
    case Hole(name) => '{' !in name && '}' !in name
  }

  predicate WellFormed(segments: seq<Segment>) {
    forall s :: s in segments ==> SegmentWellFormed(s)
  }

  function SegmentText(s: Segment): string {
    match s
    case Literal(text) => text
    case Hole(name) => Placeholder(name)
  }

  function TemplateText(segments: seq<Segment>): string {
    if segments == [] then "" else SegmentText(segments[0]) + TemplateText(segments[1..])
  }

  /** What a segment becomes: itself, its value, or "N/A". */
  function SegmentValue(s: Segment, params: map<string, string>): string {
    match s
    case Literal(text) => text
    case Hole(name) => if name in params then params[name] else MISSING
  }

  /** The meaning of a template, in one pass. */
  function Evaluate(segments: seq<Segment>, params: map<string, string>): string {
    if segments == [] then "" else SegmentValue(segments[0], params) + Evaluate(segments[1..], params)
  }

  /** Segment by segment: literals stand for themselves, a hole for its value or N/A, and is written in braces. */
  lemma SegmentsAre(text: string, name: string, rest: seq<Segment>, params: map<string, string>)
    ensures TemplateText([]) == "" && Evaluate([], params) == ""
    ensures TemplateText([Literal(text)] + rest) == text + TemplateText(rest)
    ensures TemplateText([Hole(name)] + rest) == "{" + name + "}" + TemplateText(rest)
    ensures Evaluate([Literal(text)] + rest, params) == text + Evaluate(rest, params)
    ensures Evaluate([Hole(name)] + rest, params)
            == (if name in params then params[name] else "N/A") + Evaluate(rest, params)
  {
    assert ([Literal(text)] + rest)[1..] == rest && ([Hole(name)] + rest)[1..] == rest;
  }

  /** After the first pass: known holes are filled, unknown ones still stand. */
  function Filled(segments: seq<Segment>, params: map<string, string>): string {
    if segments == [] then ""
    else
      var s := segments[0];
      (if s.Hole? && s.name in params then params[s.name] else SegmentText(s)) + Filled(segments[1..], params)
  }

  /** A text whose opening braces, if any, are never closed behind it. */
  predicate Inert(value: string, rest: string) {
    '{' in value ==> '}' !in rest && forall i, j :: 0 <= i < j < |value| ==> !(value[i] == '{' && value[j] == '}')
  }

  /** No opening brace inside an inserted value is followed by a closing brace anywhere later. */
  predicate Clean(segments: seq<Segment>, params: map<string, string>) {
    segments == []
    || (Clean(segments[1..], params)
        && (segments[0].Hole? && segments[0].name in params ==>
            Inert(params[segments[0].name], Filled(segments[1..], params))))
  }

  lemma NothingStartsHere(params: map<string, string>, c: char, rest: string)
    requires c != '{'
    ensures Substitute(params, [c] + rest) == [c] + Substitute(params, rest)
  {
    assert ([c] + rest)[1..] == rest;
  }

  lemma {:induction false} SubstituteLiteral(params: map<string, string>, text: string, rest: string)
    requires '{' !in text
    ensures Substitute(params, text + rest) == text + Substitute(params, rest)
  {
    if text == "" {
      assert text + rest == rest;
    } else {
      var c, more := text[0], text[1..];
      assert c in text && text == [c] + more;
      SubstituteLiteral(params, more, rest);
      NothingStartsHere(params, c, more + rest);
      assert text + rest == [c] + (more + rest);
      assert [c] + (more + Substitute(params, rest)) == text + Substitute(params, rest);
    }
  }

  lemma PlaceholderAt(name: string, rest: string)
    requires '}' !in name
    ensures var s := Placeholder(name) + rest;
      '}' in s && CloseAt(s) == |name| + 1 && s[1..CloseAt(s)] == name && s[CloseAt(s) + 1..] == rest
  {
    var s := Placeholder(name) + rest;
    assert Placeholder(name) <= s;
    PlaceholderMatches(name, s);
    assert |s[1..CloseAt(s)]| == |name|;
  }

  lemma SubstituteKnown(params: map<string, string>, name: string, rest: string)
    requires name in params && '}' !in name
    ensures Substitute(params, Placeholder(name) + rest) == params[name] + Substitute(params, rest)
  {
    PlaceholderAt(name, rest);
    assert KeyAt(params, Placeholder(name) + rest) == Some(name);
  }

  /** A placeholder is its opening brace and what follows it. */
  lemma PlaceholderSplit(name: string, rest: string)
    ensures Placeholder(name) + rest == "{" + ((name + "}") + rest)
    ensures (Placeholder(name) + rest)[1..] == (name + "}") + rest
  {
  }

  lemma SubstituteUnknown(params: map<string, string>, name: string, rest: string)
    requires name !in params && '{' !in name && '}' !in name
    ensures Substitute(params, Placeholder(name) + rest) == Placeholder(name) + Substitute(params, rest)
  {
    PlaceholderAt(name, rest);
    PlaceholderSplit(name, rest);
    SubstituteLiteral(params, name + "}", rest);
    PlaceholderSplit(name, Substitute(params, rest));
  }

  /** The first pass fills exactly the known holes. */
  lemma {:induction false} SubstituteFills(segments: seq<Segment>, params: map<string, string>)
    requires WellFormed(segments)
    ensures Substitute(params, TemplateText(segments)) == Filled(segments, params)
  {
    if segments != [] {
      var rest := TemplateText(segments[1..]);
      assert segments[0] in segments;
      SubstituteFills(segments[1..], params);
      match segments[0]
      case Literal(text) => SubstituteLiteral(params, text, rest);
      case Hole(name) =>
        if name in params {
          SubstituteKnown(params, name, rest);
        } else {
          SubstituteUnknown(params, name, rest);
        }
    }
  }

  lemma {:induction false} MissingLiteral(text: string, rest: string)
    requires '{' !in text
    ensures ReplaceMissing(text + rest) == text + ReplaceMissing(rest)
  {
    if text == "" {
      assert text + rest == rest;
    } else {
      assert text[0] in text && text == [text[0]] + text[1..];
      assert (text + rest)[1..] == text[1..] + rest;
      MissingLiteral(text[1..], rest);
    }
  }

  lemma MissingHole(name: string, rest: string)
    requires '}' !in name
    ensures ReplaceMissing(Placeholder(name) + rest) == MISSING + ReplaceMissing(rest)
  {
    PlaceholderAt(name, rest);
  }

  lemma {:induction false} MissingValue(value: string, rest: string)
    requires Inert(value, rest)
    ensures ReplaceMissing(value + rest) == value + ReplaceMissing(rest)
  {
    if '{' !in value {
      MissingLiteral(value, rest);
    } else if value[0] == '{' {
      assert '}' !in value && '}' !in value + rest;
      NoCloseNoChange(value + rest);
      NoCloseNoChange(rest);
    } else {
      assert (value + rest)[1..] == value[1..] + rest && value == [value[0]] + value[1..];
      MissingValue(value[1..], rest);
    }
  }

  /** Clean values: two passes give the one-pass meaning. */
  lemma {:induction false} CleanRendersMeaning(segments: seq<Segment>, params: map<string, string>)
    requires WellFormed(segments) && Clean(segments, params)
    ensures ReplaceMissing(Filled(segments, params)) == Evaluate(segments, params)
  {
    if segments != [] {
      var rest := Filled(segments[1..], params);
      assert segments[0] in segments;
      CleanRendersMeaning(segments[1..], params);
      match segments[0]
      case Literal(text) => MissingLiteral(text, rest);
      case Hole(name) =>
        if name in params {
          MissingValue(params[name], rest);
        } else {
          MissingHole(name, rest);
        }
    }
  }

  // ---------------------------------------------------------------- and only clean values

  function Opens(s: string): nat {
    if s == "" then 0 else (if s[0] == '{' then 1 else 0) + Opens(s[1..])
  }

  /** Opening braces with no closing brace behind them. */
  function Unclosed(s: string): nat {
    if s == "" then 0 else (if s[0] == '{' && '}' !in s then 1 else 0) + Unclosed(s[1..])
  }

  lemma {:induction false} OpensConcat(a: string, b: string)
    ensures Opens(a + b) == Opens(a) + Opens(b)
  {
    if a == "" {
      assert a + b == b;
    } else {
      assert (a + b)[1..] == a[1..] + b;
      OpensConcat(a[1..], b);
    }
  }

  lemma {:induction false} UnclosedBehindClose(a: string, b: string)
    requires '}' in b
    ensures Unclosed(a + b) == Unclosed(b)
  {
    if a == "" {
      assert a + b == b;
    } else {
      assert (a + b)[1..] == a[1..] + b;
      UnclosedBehindClose(a[1..], b);
    }
  }

  lemma {:induction false} UnclosedWithoutClose(a: string, b: string)
    requires '}' !in b
    ensures Unclosed(a + b) == Unclosed(a) + Opens(b)
  {
    if a == "" {
      assert a + b == b;
      if b != "" {
        assert b == [b[0]] + b[1..] && [] + b[1..] == b[1..];
        UnclosedWithoutClose(a, b[1..]);
      }
    } else {
      assert (a + b)[1..] == a[1..] + b && a == [a[0]] + a[1..];
      UnclosedWithoutClose(a[1..], b);
    }
  }

  /** Nothing before the first closing brace stays unclosed. */
  lemma UnclosedFromClose(s: string)
    requires '}' in s
    ensures Unclosed(s) == Unclosed(s[CloseAt(s) + 1..])
  {
    var n := CloseAt(s);
    assert s == s[..n] + s[n..] && s[n..][1..] == s[n + 1..];
    assert s[n] in s[n..];
    UnclosedBehindClose(s[..n], s[n..]);
  }

  lemma MissingOpensNothing(t: string)
    ensures Opens(MISSING + t) == Opens(t)
  {
    OpensConcat(MISSING, t);
    assert Opens(MISSING) == 0;
  }

  /** The second pass leaves as many opening braces as stay unclosed. */
  ghost predicate LeavesUnclosed(s: string) {
    Opens(ReplaceMissing(s)) == Unclosed(s)
  }

  /** A placeholder in front is replaced together with all its opening braces. */
  lemma OpensOfPlaceholder(s: string)
    requires s != "" && s[0] == '{' && '}' in s && LeavesUnclosed(s[CloseAt(s) + 1..])
    ensures LeavesUnclosed(s)
  {
    MissingOpensNothing(ReplaceMissing(s[CloseAt(s) + 1..]));
    UnclosedFromClose(s);
  }

  lemma OpensOfOther(s: string)
    requires s != "" && !(s[0] == '{' && '}' in s) && LeavesUnclosed(s[1..])
    ensures LeavesUnclosed(s)
  {
  }

  /** The second pass removes every opening brace that is closed later, and no other. */
  lemma {:induction false} OpensOfMissing(s: string)
    ensures LeavesUnclosed(s)
    decreases |s|
  {
    if s != "" {
      if s[0] == '{' && '}' in s {
        OpensOfMissing(s[CloseAt(s) + 1..]);
        OpensOfPlaceholder(s);
      } else {
        OpensOfMissing(s[1..]);
        OpensOfOther(s);
      }
    }
  }

  lemma {:induction false} UnclosedAtMostOpens(s: string)
    ensures Unclosed(s) <= Opens(s)
    ensures Unclosed(s) == Opens(s) <==> forall i, j :: 0 <= i < j < |s| ==> !(s[i] == '{' && s[j] == '}')
  {
    if s != "" {
      UnclosedAtMostOpens(s[1..]);
      assert s == [s[0]] + s[1..];
    }
  }

  lemma {:induction false} OpensZero(s: string)
    ensures Opens(s) == 0 <==> '{' !in s
  {
    if s != "" {
      assert s == [s[0]] + s[1..];
      OpensZero(s[1..]);
    }
  }

  /** A value in front of a text keeps all its opening braces exactly when it is inert. */
  lemma UnclosedValue(value: string, rest: string)
    ensures Unclosed(value + rest) <= Opens(value) + Unclosed(rest)
    ensures Unclosed(value + rest) == Opens(value) + Unclosed(rest) <==> Inert(value, rest)
  {
    UnclosedAtMostOpens(value);
    OpensZero(value);
    if '}' in rest {
      UnclosedBehindClose(value, rest);
    } else {
      UnclosedWithoutClose(value, rest);
      UnclosedWithoutClose("", rest);
      assert "" + rest == rest;
    }
  }

  /** Counting opening braces tells clean templates from the others. */
  lemma {:induction false} UnclosedOfFilled(segments: seq<Segment>, params: map<string, string>)
    requires WellFormed(segments)
    ensures Unclosed(Filled(segments, params)) <= Opens(Evaluate(segments, params))
    ensures Unclosed(Filled(segments, params)) == Opens(Evaluate(segments, params)) <==> Clean(segments, params)
  {
    if segments != [] {
      var rest, meaning := Filled(segments[1..], params), Evaluate(segments[1..], params);
      assert segments[0] in segments;
      UnclosedOfFilled(segments[1..], params);
      OpensConcat(SegmentValue(segments[0], params), meaning);
      match segments[0]
      case Literal(text) =>
        OpensZero(text);
        UnclosedValue(text, rest);
      case Hole(name) =>
        if name in params {
          UnclosedValue(params[name], rest);
        } else {
          assert Opens(MISSING) == 0;
          UnclosedHole(name, rest);
        }
    }
  }

  lemma UnclosedHole(name: string, rest: string)
    requires '{' !in name
    ensures Unclosed(Placeholder(name) + rest) == Unclosed(rest)
  {
    var s := Placeholder(name) + rest;
    assert s == ("{" + name) + ("}" + rest);
    UnclosedBehindClose("{" + name, "}" + rest);
    assert ("}" + rest)[1..] == rest;
  }

  /**
    Two passes agree with the one-pass meaning exactly when the inserted values are clean: brace-free
    values always are, and any other value spoils the result if one of its opening braces meets a
    later closing brace.
   */
  lemma RenderingMeansSegmentsIff(segments: seq<Segment>, params: map<string, string>)
    requires WellFormed(segments)
    ensures Rendered(TemplateText(segments), params) == Evaluate(segments, params) <==> Clean(segments, params)
  {
    SubstituteFills(segments, params);
    if Clean(segments, params) {
      CleanRendersMeaning(segments, params);
    } else {
      OpensOfMissing(Filled(segments, params));
      UnclosedOfFilled(segments, params);
    }
  }

  const HOLE_AND_BRACE: seq<Segment> := [Hole("a"), Literal("}")]
  const OPENING: map<string, string> := map["a" := "{"]

  lemma HoleAndBraceTexts()
    ensures WellFormed(HOLE_AND_BRACE) && TemplateText(HOLE_AND_BRACE) == "{a}}"
    ensures Filled(HOLE_AND_BRACE, OPENING) == "{}" && Evaluate(HOLE_AND_BRACE, OPENING) == "{}"
  {
    var rest := [Literal("}")];
    assert HOLE_AND_BRACE[1..] == rest && rest[1..] == [];
    assert TemplateText(rest) == "}" && Filled(rest, OPENING) == "}" && Evaluate(rest, OPENING) == "}";
  }

  /** The value "{" in the template "{a}}" makes the rendering "N/A" instead of "{}". */
  lemma OpenValueSwallowsText()
    ensures WellFormed(HOLE_AND_BRACE)
    ensures Rendered(TemplateText(HOLE_AND_BRACE), OPENING) == "N/A" != "{}" == Evaluate(HOLE_AND_BRACE, OPENING)
  {
    HoleAndBraceTexts();
    SubstituteFills(HOLE_AND_BRACE, OPENING);
    MissingHole("", "");
    assert Placeholder("") + "" == "{}";
  }

  lemma {:induction false} OpenFreeValuesAreClean(segments: seq<Segment>, params: map<string, string>)
    requires forall key :: key in params ==> '{' !in params[key]
    ensures Clean(segments, params)
  {
    if segments != [] {
      OpenFreeValuesAreClean(segments[1..], params);
    }
  }

  // ---------------------------------------------------------------- recipes

  datatype Rule = Rule(source: string, interpretation: string)

  datatype Metric = Metric(value: real, baseline: real)

  datatype RenderedEvidence = RenderedEvidence(source: string, text: string)

  const METRIC_PREFIX := "metric:"

  /** The parameters of one rule: numbers only for metric rules, zero for a metric without a result. */
  function ParamsFor(source: string, objectId: string, severity: string, metrics: map<string, Metric>,
                     format: real -> string): map<string, string> {
    var common := map["object_id" := objectId, "severity" := severity];
    if !(METRIC_PREFIX <= source) then common
    else
      var name := source[|METRIC_PREFIX|..];
      var m := if name in metrics then metrics[name] else Metric(0.0, 0.0);
      common + map["current" := format(m.value), "baseline" := format(m.baseline),
                   "delta" := format(m.value - m.baseline)]
  }

  /** Which number is which: a metric rule shows the metric's value, its baseline, and the first less the second. */
  lemma RecipeParams(name: string, other: string, objectId: string, severity: string, metrics: map<string, Metric>,
                     format: real -> string)
    requires !("metric:" <= other)
    ensures ParamsFor(other, objectId, severity, metrics, format)
            == map["object_id" := objectId, "severity" := severity]
    ensures var params := ParamsFor("metric:" + name, objectId, severity, metrics, format);
      && params.Keys == {"object_id", "severity", "current", "baseline", "delta"}
      && params["object_id"] == objectId && params["severity"] == severity
      && (name in metrics ==>
            && params["current"] == format(metrics[name].value) && params["baseline"] == format(metrics[name].baseline)
            && params["delta"] == format(metrics[name].value - metrics[name].baseline))
      && (name !in metrics ==>
            params["current"] == format(0.0) && params["baseline"] == format(0.0) && params["delta"] == format(0.0))
  {
    assert ("metric:" + name)[|METRIC_PREFIX|..] == name;
  }

  lemma RecipeKeysArePlain(source: string, objectId: string, severity: string, metrics: map<string, Metric>,
                           format: real -> string)
    ensures PlainKeys(ParamsFor(source, objectId, severity, metrics, format))
  {
    var params := ParamsFor(source, objectId, severity, metrics, format);
    assert forall key :: key in params ==> key in {"object_id", "severity", "current", "baseline", "delta"};
  }

  /** RenderRecipeEvidence: every rule in order, each with a result that no iteration order can change. */
  method RenderRecipeEvidence(rules: seq<Rule>, objectId: string, severity: string, metrics: map<string, Metric>,
                              format: real -> string)
    returns (out: seq<RenderedEvidence>)
    ensures |out| == |rules|
    ensures forall i :: 0 <= i < |rules| ==>
              out[i].source == rules[i].source
              && out[i].text == Rendered(rules[i].interpretation,
                                         ParamsFor(rules[i].source, objectId, severity, metrics, format))
  {
    out := [];
    for i := 0 to |rules|
      invariant |out| == i
      invariant forall j :: 0 <= j < i ==>
                  out[j].source == rules[j].source
                  && out[j].text == Rendered(rules[j].interpretation,
                                             ParamsFor(rules[j].source, objectId, severity, metrics, format))
    {
      var rule := rules[i];
      RecipeKeysArePlain(rule.source, objectId, severity, metrics, format);
      var text;
      ghost var order;
      text, order := RenderEvidence(rule.interpretation, ParamsFor(rule.source, objectId, severity, metrics, format));
      out := out + [RenderedEvidence(rule.source, text)];
    }
  }
}
