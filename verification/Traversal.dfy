/**
  The ontology link traversal (internal/decision/context_builder_v3.go): a depth-bounded recursion
  over links that may form cycles; links and objects that cannot be resolved are skipped.
 */
module Traversal {
  import opened Wrappers

  datatype Link = Link(name: string, targetType: string, via: string)

  /** A property value is nil or a value printed with %v. */
  datatype Object = Object(objectType: string, objectId: string, properties: map<string, Option<string>>)

  /** The two services the builder asks; either may fail for any argument. */
  datatype Services = Services(links: string -> Option<seq<Link>>, objects: (string, string) -> Option<Object>)

  datatype Entry = Entry(linkName: string, depth: nat, object: Object)

  /** The positions of the links followed, one per step. */
  type Path = seq<nat>

  // ---------------------------------------------------------------- resolving one path

  function LinksOf(env: Services, objectType: string): seq<Link> {
    env.links(objectType).GetOr([])
  }

  /** The object reached over one link of an object, if everything on the way resolves. */
  function Follow(env: Services, objectType: string, objectId: string, i: nat): Option<Object> {
    if i >= |LinksOf(env, objectType)| then None
    else
      var link := LinksOf(env, objectType)[i];
      match env.objects(objectType, objectId)
      case None => None
      case Some(source) =>
        if link.via !in source.properties || source.properties[link.via].None?
            || source.properties[link.via].value == "" then None
        else env.objects(link.targetType, source.properties[link.via].value)
  }

  function ExtendName(prefix: string, name: string): string {
    if prefix == "" then name else prefix + "." + name
  }

  /** The entry a path leads to, labelled with the names of its links. */
  function EntryAt(env: Services, objectType: string, objectId: string, prefix: string, depth: nat,
                   path: Path): Option<Entry>
    decreases path
  {
    if path == [] then None
    else match Follow(env, objectType, objectId, path[0])
      case None => None
      case Some(o) =>
        var name := ExtendName(prefix, LinksOf(env, objectType)[path[0]].name);
        if |path| == 1 then Some(Entry(name, depth, o))
        else EntryAt(env, o.objectType, o.objectId, name, depth + 1, path[1..])
  }

  /**
    A link is followed by the value its `via` property has on the source object, unless that is absent, nil
    or empty.
   */
  lemma FollowIs(env: Services, objectType: string, objectId: string, i: nat)
    requires env.links(objectType).Some? && i < |env.links(objectType).value|
    ensures var link, source := env.links(objectType).value[i], env.objects(objectType, objectId);
      Follow(env, objectType, objectId, i)
      == if source.Some? && link.via in source.value.properties
            && source.value.properties[link.via].GetOr("") != ""
         then env.objects(link.targetType, source.value.properties[link.via].value) else None
  {
  }

  /** The entry of a path is the entry of its rest at the object its first link leads to, one level deeper. */
  lemma EntryIs(env: Services, objectType: string, objectId: string, prefix: string, depth: nat, i: nat, rest: Path)
    requires Follow(env, objectType, objectId, i).Some?
    ensures var o := Follow(env, objectType, objectId, i).value;
      var name := (if prefix == "" then "" else prefix + ".") + LinksOf(env, objectType)[i].name;
      && EntryAt(env, objectType, objectId, prefix, depth, [i]) == Some(Entry(name, depth, o))
      && (rest != [] ==>
            EntryAt(env, objectType, objectId, prefix, depth, [i] + rest)
            == EntryAt(env, o.objectType, o.objectId, name, depth + 1, rest))
  {
    assert ([i] + rest)[1..] == rest;
    var first := LinksOf(env, objectType)[i].name;
    assert "" + first == first;
  }

  /** The names of the links along a path. */
  function NamesAlong(env: Services, objectType: string, objectId: string, path: Path): seq<string>
    requires Resolves(env, objectType, objectId, path)
    decreases path
  {
    var o := Follow(env, objectType, objectId, path[0]).value;
    [LinksOf(env, objectType)[path[0]].name]
    + (if |path| == 1 then [] else NamesAlong(env, o.objectType, o.objectId, path[1..]))
  }

  function Dotted(names: seq<string>): string {
    if names == [] then "" else if |names| == 1 then names[0] else names[0] + "." + Dotted(names[1..])
  }

  lemma DottedFirstTwo(a: string, b: string, rest: seq<string>)
    ensures Dotted([a + "." + b] + rest) == Dotted([a] + ([b] + rest))
  {
    assert ([a] + ([b] + rest))[1..] == [b] + rest;
    assert ([b] + rest)[1..] == rest && ([a + "." + b] + rest)[1..] == rest;
  }

  /** The entry of the path is labelled with the prefix and the names along the path. */
  ghost predicate Labelled(env: Services, objectType: string, objectId: string, prefix: string, depth: nat, path: Path)
    requires Resolves(env, objectType, objectId, path)
  {
    && EntryAt(env, objectType, objectId, prefix, depth, path).Some?
    && EntryAt(env, objectType, objectId, prefix, depth, path).value.linkName
       == Dotted([prefix] + NamesAlong(env, objectType, objectId, path))
  }

  lemma LabelledStep(env: Services, objectType: string, objectId: string, prefix: string, depth: nat, path: Path,
                     o: Object)
    requires prefix != "" && |path| > 1 && Resolves(env, objectType, objectId, path)
    requires Follow(env, objectType, objectId, path[0]) == Some(o)
    requires Labelled(env, o.objectType, o.objectId, prefix + "." + LinksOf(env, objectType)[path[0]].name, depth + 1,
                      path[1..])
    ensures Labelled(env, objectType, objectId, prefix, depth, path)
  {
    DottedFirstTwo(prefix, LinksOf(env, objectType)[path[0]].name,
                   NamesAlong(env, o.objectType, o.objectId, path[1..]));
  }

  lemma LabelledLast(env: Services, objectType: string, objectId: string, prefix: string, depth: nat, path: Path)
    requires prefix != "" && |path| == 1 && Resolves(env, objectType, objectId, path)
    ensures Labelled(env, objectType, objectId, prefix, depth, path)
  {
    DottedTwo(prefix, LinksOf(env, objectType)[path[0]].name);
  }

  lemma {:induction false} NameUnder(env: Services, objectType: string, objectId: string, prefix: string, depth: nat,
                                     path: Path)
    requires prefix != "" && Resolves(env, objectType, objectId, path)
    ensures Labelled(env, objectType, objectId, prefix, depth, path)
    decreases path
  {
    if |path| == 1 {
      LabelledLast(env, objectType, objectId, prefix, depth, path);
    } else {
      var o := Follow(env, objectType, objectId, path[0]).value;
      NameUnder(env, o.objectType, o.objectId, prefix + "." + LinksOf(env, objectType)[path[0]].name, depth + 1,
                path[1..]);
      LabelledStep(env, objectType, objectId, prefix, depth, path, o);
    }
  }

  lemma DottedTwo(a: string, b: string)
    ensures Dotted([a] + [b]) == a + "." + b
  {
    assert ([a] + [b])[1..] == [b];
  }

  /** The names from the first one on that is not empty. */
  function FromFirstNamed(names: seq<string>): seq<string> {
    if names != [] && names[0] == "" then FromFirstNamed(names[1..]) else names
  }

  /**
    An entry is labelled with the names of the links that lead to it, in path order, joined by dots;
    links without a name in front leave no trace.
   */
  lemma {:induction false} EntryIsNamedByItsPath(env: Services, objectType: string, objectId: string, depth: nat,
                                                 path: Path)
    requires Resolves(env, objectType, objectId, path)
    ensures EntryAt(env, objectType, objectId, "", depth, path).Some?
    ensures EntryAt(env, objectType, objectId, "", depth, path).value.linkName
         == Dotted(FromFirstNamed(NamesAlong(env, objectType, objectId, path)))
    decreases path
  {
    var o := Follow(env, objectType, objectId, path[0]).value;
    var name := LinksOf(env, objectType)[path[0]].name;
    if |path| > 1 {
      var rest := NamesAlong(env, o.objectType, o.objectId, path[1..]);
      assert ([name] + rest)[1..] == rest;
      if name == "" {
        EntryIsNamedByItsPath(env, o.objectType, o.objectId, depth + 1, path[1..]);
      } else {
        NameUnder(env, o.objectType, o.objectId, name, depth + 1, path[1..]);
      }
    }
  }

  predicate Resolves(env: Services, objectType: string, objectId: string, path: Path)
    decreases path
  {
    path != [] &&
    var o := Follow(env, objectType, objectId, path[0]);
    o.Some? && (|path| == 1 || Resolves(env, o.value.objectType, o.value.objectId, path[1..]))
  }

  /** A path resolves exactly when it leads to an entry, whose depth counts its links. */
  lemma {:induction false} ResolvesIsEntry(env: Services, objectType: string, objectId: string, prefix: string,
                                           depth: nat, path: Path)
    ensures EntryAt(env, objectType, objectId, prefix, depth, path).Some? <==> Resolves(env, objectType, objectId, path)
    ensures Resolves(env, objectType, objectId, path) ==>
              EntryAt(env, objectType, objectId, prefix, depth, path).value.depth == depth + |path| - 1
    decreases path
  {
    if path != [] {
      var o := Follow(env, objectType, objectId, path[0]);
      if o.Some? && |path| > 1 {
        var name := ExtendName(prefix, LinksOf(env, objectType)[path[0]].name);
        ResolvesIsEntry(env, o.value.objectType, o.value.objectId, name, depth + 1, path[1..]);
      }
    }
  }

  // ---------------------------------------------------------------- the paths in preorder

  function Extend(i: nat, paths: seq<Path>): (r: seq<Path>)
    ensures |r| == |paths| && forall k :: 0 <= k < |paths| ==> r[k] == [i] + paths[k]
  {
    seq(|paths|, k requires 0 <= k < |paths| => [i] + paths[k])
  }

  /** The paths of length at most d over the first n links, parents before their children. */
  function PathsUpTo(env: Services, objectType: string, objectId: string, d: nat, n: nat): seq<Path>
    decreases d, n
  {
    if d == 0 || n == 0 then []
    else PathsUpTo(env, objectType, objectId, d, n - 1) + Subtree(env, objectType, objectId, d, n - 1)
  }

  /** The paths that start with link i. */
  function Subtree(env: Services, objectType: string, objectId: string, d: nat, i: nat): seq<Path>
    requires d > 0
    decreases d, i
  {
    match Follow(env, objectType, objectId, i)
    case None => []
    case Some(o) => [[i]] + Extend(i, PathsUpTo(env, o.objectType, o.objectId, d - 1, |LinksOf(env, o.objectType)|))
  }

  function Paths(env: Services, objectType: string, objectId: string, d: nat): seq<Path> {
    PathsUpTo(env, objectType, objectId, d, |LinksOf(env, objectType)|)
  }

  /** Preorder: a parent before its children, siblings in link order. */
  predicate Before(p: Path, q: Path) {
    q != [] && (p == [] || p[0] < q[0] || (p[0] == q[0] && Before(p[1..], q[1..])))
  }

  lemma ExtendContains(i: nat, paths: seq<Path>, p: Path)
    ensures p in Extend(i, paths) <==> p != [] && p[0] == i && p[1..] in paths
  {
    if p in Extend(i, paths) {
      var k :| 0 <= k < |paths| && Extend(i, paths)[k] == p;
      assert p[1..] == paths[k];
    }
    if p != [] && p[0] == i && p[1..] in paths {
      var k :| 0 <= k < |paths| && paths[k] == p[1..];
      assert Extend(i, paths)[k] == p;
    }
  }

  lemma UnderLink(i: nat, children: seq<Path>, p: Path)
    requires [] !in children
    ensures p in [[i]] + Extend(i, children) <==> p != [] && p[0] == i && (|p| == 1 || p[1..] in children)
  {
    ExtendContains(i, children, p);
    if p != [] && p[0] == i && |p| == 1 {
      assert p == [i];
    }
  }

  lemma ResolvableStartsInRange(env: Services, objectType: string, objectId: string, p: Path)
    ensures Resolves(env, objectType, objectId, p) ==> p[0] < |LinksOf(env, objectType)|
  {
  }

  /** The list holds exactly the resolvable paths of length 1 to d, even when the links form cycles. */
  lemma {:induction false} PathsAreResolvable(env: Services, objectType: string, objectId: string, d: nat, n: nat,
                                              p: Path)
    ensures p in PathsUpTo(env, objectType, objectId, d, n)
            <==> 1 <= |p| <= d && p[0] < n && Resolves(env, objectType, objectId, p)
    decreases d, n
  {
    if d > 0 && n > 0 {
      PathsAreResolvable(env, objectType, objectId, d, n - 1, p);
      SubtreeIsResolvable(env, objectType, objectId, d, n - 1, p);
    }
  }

  lemma {:induction false} SubtreeIsResolvable(env: Services, objectType: string, objectId: string, d: nat, i: nat,
                                               p: Path)
    requires d > 0
    ensures p in Subtree(env, objectType, objectId, d, i)
            <==> 1 <= |p| <= d && p[0] == i && Resolves(env, objectType, objectId, p)
    decreases d, i
  {
    match Follow(env, objectType, objectId, i)
    case None =>
    case Some(o) =>
      var m := |LinksOf(env, o.objectType)|;
      PathsAreResolvable(env, o.objectType, o.objectId, d - 1, m, []);
      UnderLink(i, Paths(env, o.objectType, o.objectId, d - 1), p);
      if |p| > 1 {
        PathsAreResolvable(env, o.objectType, o.objectId, d - 1, m, p[1..]);
        ResolvableStartsInRange(env, o.objectType, o.objectId, p[1..]);
      }
  }

  lemma {:induction false} BeforeIsIrreflexive(p: Path)
    ensures !Before(p, p)
    decreases p
  {
    if p != [] {
      BeforeIsIrreflexive(p[1..]);
    }
  }

  ghost predicate Ordered(paths: seq<Path>) {
    forall j, k :: 0 <= j < k < |paths| ==> Before(paths[j], paths[k])
  }

  /** The list is in strict preorder, so no path occurs twice. */
  lemma {:induction false} PathsAreOrdered(env: Services, objectType: string, objectId: string, d: nat, n: nat)
    ensures Ordered(PathsUpTo(env, objectType, objectId, d, n))
    decreases d, n, 1
  {
    if d > 0 && n > 0 {
      var earlier, subtree := PathsUpTo(env, objectType, objectId, d, n - 1),
          Subtree(env, objectType, objectId, d, n - 1);
      PathsAreOrdered(env, objectType, objectId, d, n - 1);
      SubtreeOrdered(env, objectType, objectId, d, n - 1);
      forall k | 0 <= k < |earlier| ensures earlier[k] != [] && earlier[k][0] < n - 1 {
        PathsAreResolvable(env, objectType, objectId, d, n - 1, earlier[k]);
      }
      forall k | 0 <= k < |subtree| ensures subtree[k] != [] && subtree[k][0] == n - 1 {
        SubtreeIsResolvable(env, objectType, objectId, d, n - 1, subtree[k]);
      }
    }
  }

  /** In strict preorder no path can occur twice. */
  lemma NoPathTwice(env: Services, objectType: string, objectId: string, d: nat)
    ensures var paths := Paths(env, objectType, objectId, d);
      forall j, k :: 0 <= j < k < |paths| ==> paths[j] != paths[k]
  {
    var paths := Paths(env, objectType, objectId, d);
    PathsAreOrdered(env, objectType, objectId, d, |LinksOf(env, objectType)|);
    forall j, k | 0 <= j < k < |paths| ensures paths[j] != paths[k] {
      BeforeIsIrreflexive(paths[j]);
    }
  }

  lemma {:induction false} SubtreeOrdered(env: Services, objectType: string, objectId: string, d: nat, i: nat)
    requires d > 0
    ensures Ordered(Subtree(env, objectType, objectId, d, i))
    decreases d, i, 0
  {
    match Follow(env, objectType, objectId, i)
    case None =>
    case Some(o) =>
      var m, children := |LinksOf(env, o.objectType)|, Paths(env, o.objectType, o.objectId, d - 1);
      PathsAreOrdered(env, o.objectType, o.objectId, d - 1, m);
      forall k | 0 <= k < |children| ensures children[k] != [] {
        PathsAreResolvable(env, o.objectType, o.objectId, d - 1, m, children[k]);
      }
      SubtreeIsOrdered(i, children);
  }

  lemma SubtreeIsOrdered(i: nat, children: seq<Path>)
    requires Ordered(children) && forall k :: 0 <= k < |children| ==> children[k] != []
    ensures Ordered([[i]] + Extend(i, children))
  {
    var subtree := [[i]] + Extend(i, children);
    forall j, k | 0 <= j < k < |subtree| ensures Before(subtree[j], subtree[k]) {
      assert subtree[k] == [i] + children[k - 1];
      assert subtree[k][1..] == children[k - 1];
      if j > 0 {
        assert subtree[j] == [i] + children[j - 1];
        assert subtree[j][1..] == children[j - 1];
      }
    }
  }

  // ---------------------------------------------------------------- size

  /** width + width^2 + ... + width^d */
  function Bound(width: nat, d: nat): nat {
    if d == 0 then 0 else width * (1 + Bound(width, d - 1))
  }

  /** With at most `width` links per type, the traversal lists at most the nodes of a full tree. */
  lemma {:induction false} PathsAreBounded(env: Services, objectType: string, objectId: string, d: nat, n: nat,
                                           width: nat)
    requires forall t :: |LinksOf(env, t)| <= width
    ensures |PathsUpTo(env, objectType, objectId, d, n)| <= n * (1 + (if d == 0 then 0 else Bound(width, d - 1)))
    decreases d, n
  {
    if d > 0 && n > 0 {
      var node := 1 + Bound(width, d - 1);
      PathsAreBounded(env, objectType, objectId, d, n - 1, width);
      assert n * node == (n - 1) * node + node;
      match Follow(env, objectType, objectId, n - 1)
      case None =>
      case Some(o) =>
        var m := |LinksOf(env, o.objectType)|;
        PathsAreBounded(env, o.objectType, o.objectId, d - 1, m, width);
        if d > 1 {
          Scale(m, width, 1 + Bound(width, d - 2));
        } else {
          assert PathsUpTo(env, o.objectType, o.objectId, 0, m) == [];
        }
    }
  }

  lemma Scale(m: nat, width: nat, x: nat)
    requires m <= width
    ensures m * x <= width * x
  {
  }

  /** With w links everywhere: w after one step, w + w * w after two, and so on. */
  lemma BoundIs(w: nat, d: nat)
    ensures Bound(w, 0) == 0 && Bound(w, 1) == w && Bound(w, 2) == w + w * w
    ensures Bound(w, d + 1) == w + w * Bound(w, d)
  {
  }

  lemma TraversalSize(env: Services, objectType: string, objectId: string, d: nat, width: nat)
    requires forall t :: |LinksOf(env, t)| <= width
    ensures |Paths(env, objectType, objectId, d)| <= Bound(width, d)
  {
    var n := |LinksOf(env, objectType)|;
    PathsAreBounded(env, objectType, objectId, d, n, width);
    if d > 0 {
      Scale(n, width, 1 + Bound(width, d - 1));
    }
  }

  // ---------------------------------------------------------------- the implementation

  /** results are the entries of the paths, one by one. */
  ghost predicate Lists(env: Services, objectType: string, objectId: string, prefix: string, depth: nat,
                        paths: seq<Path>, results: seq<Entry>) {
    |results| == |paths|
    && forall k :: 0 <= k < |paths| ==> EntryAt(env, objectType, objectId, prefix, depth, paths[k]) == Some(results[k])
  }

  /** The entries below a link are the entries of the object it leads to. */
  lemma ListsBelow(env: Services, objectType: string, objectId: string, prefix: string, depth: nat,
                   i: nat, o: Object, children: seq<Path>, results: seq<Entry>)
    requires Follow(env, objectType, objectId, i) == Some(o)
    requires forall p :: p in children ==> p != []
    requires Lists(env, o.objectType, o.objectId, ExtendName(prefix, LinksOf(env, objectType)[i].name), depth + 1,
                   children, results)
    ensures Lists(env, objectType, objectId, prefix, depth, Extend(i, children), results)
  {
    forall k | 0 <= k < |children|
      ensures EntryAt(env, objectType, objectId, prefix, depth, Extend(i, children)[k]) == Some(results[k])
    {
      assert children[k] in children;
      assert ([i] + children[k])[1..] == children[k];
    }
  }

  /** traverseAtDepth: terminates because the depth left shrinks, and lists the resolvable paths in preorder. */
  method TraverseAtDepth(env: Services, objectType: string, objectId: string, prefix: string, depth: nat, maxDepth: nat)
    returns (results: seq<Entry>)
    ensures Lists(env, objectType, objectId, prefix, depth,
                  Paths(env, objectType, objectId, if depth > maxDepth then 0 else maxDepth - depth + 1), results)
    decreases maxDepth + 1 - depth
  {
    results := [];
    if depth > maxDepth {
      return;
    }
    var answer := env.links(objectType);
    if answer.None? || |answer.value| == 0 {
      return;
    }
    var links := answer.value;
    var source := env.objects(objectType, objectId);
    var d := maxDepth - depth + 1;
    if source.None? {
      NothingBelow(env, objectType, objectId, d, |links|);
      return;
    }
    for i := 0 to |links|
      invariant Lists(env, objectType, objectId, prefix, depth, PathsUpTo(env, objectType, objectId, d, i), results)
    {
      var link := links[i];
      if link.via !in source.value.properties || source.value.properties[link.via].None? {
        continue;
      }
      var via := source.value.properties[link.via].value;
      if via == "" {
        continue;
      }
      var linked := env.objects(link.targetType, via);
      if linked.None? {
        continue;
      }
      var o := linked.value;
      var name := ExtendName(prefix, link.name);
      var below: seq<Entry> := [];
      if depth < maxDepth {
        below := TraverseAtDepth(env, o.objectType, o.objectId, name, depth + 1, maxDepth);
      }
      OneMoreLink(env, objectType, objectId, prefix, depth, d, i, o, results, below);
      results := results + [Entry(name, depth, o)] + below;
    }
  }

  lemma {:induction false} NothingBelow(env: Services, objectType: string, objectId: string, d: nat, n: nat)
    requires env.objects(objectType, objectId).None?
    ensures PathsUpTo(env, objectType, objectId, d, n) == []
  {
    if d > 0 && n > 0 {
      NothingBelow(env, objectType, objectId, d, n - 1);
    }
  }

  lemma OneMoreLink(env: Services, objectType: string, objectId: string, prefix: string, depth: nat, d: nat,
                    i: nat, o: Object, results: seq<Entry>, below: seq<Entry>)
    requires d > 0 && Follow(env, objectType, objectId, i) == Some(o)
    requires Lists(env, objectType, objectId, prefix, depth, PathsUpTo(env, objectType, objectId, d, i), results)
    requires Lists(env, o.objectType, o.objectId, ExtendName(prefix, LinksOf(env, objectType)[i].name), depth + 1,
                   Paths(env, o.objectType, o.objectId, d - 1), below)
    ensures Lists(env, objectType, objectId, prefix, depth, PathsUpTo(env, objectType, objectId, d, i + 1),
                  results + [Entry(ExtendName(prefix, LinksOf(env, objectType)[i].name), depth, o)] + below)
  {
    var children := Paths(env, o.objectType, o.objectId, d - 1);
    forall p | p in children ensures p != [] {
      PathsAreResolvable(env, o.objectType, o.objectId, d - 1, |LinksOf(env, o.objectType)|, p);
    }
    ListsBelow(env, objectType, objectId, prefix, depth, i, o, children, below);
    var entry := Entry(ExtendName(prefix, LinksOf(env, objectType)[i].name), depth, o);
    assert EntryAt(env, objectType, objectId, prefix, depth, [i]) == Some(entry);
    var earlier := PathsUpTo(env, objectType, objectId, d, i);
    assert PathsUpTo(env, objectType, objectId, d, i + 1) == earlier + ([[i]] + Extend(i, children));
    ListsConcat(env, objectType, objectId, prefix, depth, [[i]], [entry], Extend(i, children), below);
    ListsConcat(env, objectType, objectId, prefix, depth, earlier, results, [[i]] + Extend(i, children),
                [entry] + below);
    assert results + [entry] + below == results + ([entry] + below);
  }

  lemma ListsConcat(env: Services, objectType: string, objectId: string, prefix: string, depth: nat,
                    p1: seq<Path>, r1: seq<Entry>, p2: seq<Path>, r2: seq<Entry>)
    requires Lists(env, objectType, objectId, prefix, depth, p1, r1)
    requires Lists(env, objectType, objectId, prefix, depth, p2, r2)
    ensures Lists(env, objectType, objectId, prefix, depth, p1 + p2, r1 + r2)
  {
  }

  const MAX_DEPTH := 2

  /** BuildDecisionContext's enrichment of the base context's object. */
  method Enrich(env: Services, objectType: string, objectId: string) returns (enriched: seq<Entry>)
    ensures objectType == "" || objectId == "" ==> enriched == []
    ensures objectType != "" && objectId != "" ==>
              && |enriched| == |Paths(env, objectType, objectId, 2)|
              && forall k :: 0 <= k < |enriched| ==>
                   EntryAt(env, objectType, objectId, "", 1, Paths(env, objectType, objectId, 2)[k])
                       == Some(enriched[k])
                   && 1 <= enriched[k].depth <= 2
  {
    if objectType == "" || objectId == "" {
      return [];
    }
    enriched := TraverseAtDepth(env, objectType, objectId, "", 1, MAX_DEPTH);
    var paths := Paths(env, objectType, objectId, 2);
    forall k | 0 <= k < |enriched| ensures 1 <= enriched[k].depth <= 2 {
      PathsAreResolvable(env, objectType, objectId, MAX_DEPTH, |LinksOf(env, objectType)|, paths[k]);
      ResolvesIsEntry(env, objectType, objectId, "", 1, paths[k]);
    }
  }
}
