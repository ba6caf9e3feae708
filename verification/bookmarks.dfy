/**
 Chrome bookmark import (`backend/connectors/bookmarks.py`): a pre-order walk
 over the parsed JSON bookmark file collecting the `url` nodes. The walk runs
 inside one `try`, so any `AttributeError` or `TypeError` raised by an
 unexpected shape of the tree turns the whole result into `[]`; here a walk
 that raises is `None`.
 */
module Bookmarks {
  import opened Wrappers
  import opened Json

  /** One collected bookmark: the raw `name`, `url` and `date_added` values, defaulted when absent. */
  datatype Bookmark = Bookmark(title: Json, url: Json, dateAdded: Json)

  /** The root folders visited, in this order. */
  const RootNames: seq<string> := ["bookmark_bar", "other", "synced"]

  /** `node.get('type') == 'url'`. */
  predicate IsUrlNode(node: Dict) {
    Get(node, "type", JNull) == JStr("url")
  }

  /** The record appended for a url node. */
  function EntryOf(node: Dict): Bookmark {
    Bookmark(Get(node, "name", JStr("Untitled")), Get(node, "url", JStr("")), Get(node, "date_added", JStr("")))
  }

  /**
    `extract_bookmarks(node)`: the node's own entry if it is a url node, then
    the entries of its children, left to right. A node that is not a `dict`
    has no `.get` and raises; `for child in node['children']` raises unless the
    value is a list, or an empty `dict` or string (which iterate over nothing),
    because the keys or characters of a non-empty one are strings, which
    raise in turn.
   */
  function Extract(node: Json): (r: Option<seq<Bookmark>>)
    decreases node, 1
  {
    match node
    case JObj(m) =>
      var own := if IsUrlNode(m) then [EntryOf(m)] else [];
      if "children" !in m then Some(own)
      else (
        match m["children"]
        case JArr(items) =>
          (match ExtractAll(items)
           case Some(rest) => Some(own + rest)
           case None => None)
        case JObj(f) => if |f| == 0 then Some(own) else None
        case JStr(s) => if |s| == 0 then Some(own) else None
        case _ => None)
    case _ => None
  }

  /** The children loop: the entries of every child, in order; one failure fails all. */
  function ExtractAll(nodes: seq<Json>): (r: Option<seq<Bookmark>>)
    decreases nodes, 0
  {
    if |nodes| == 0 then Some([])
    else
      match Extract(nodes[0])
      case None => None
      case Some(first) =>
        match ExtractAll(nodes[1..])
        case None => None
        case Some(rest) => Some(first + rest)
  }

  // ---------------------------------------------------------------------------
  // Reference description: the shape the walk accepts, and what it collects
  // ---------------------------------------------------------------------------

  /** The trees the walk gets through without raising. */
  predicate WellFormed(node: Json)
    decreases node, 1
  {
    match node
    case JObj(m) =>
      "children" !in m || (
        match m["children"]
        case JArr(items) => AllWellFormed(items)
        case JObj(f) => |f| == 0
        case JStr(s) => |s| == 0
        case _ => false)
    case _ => false
  }

  predicate AllWellFormed(nodes: seq<Json>)
    decreases nodes, 0
  {
    |nodes| == 0 || (WellFormed(nodes[0]) && AllWellFormed(nodes[1..]))
  }

  /** The `dict` nodes of a tree in pre-order: each node before its children, children left to right. */
  function PreOrder(node: Json): seq<Dict>
    decreases node, 1
  {
    match node
    case JObj(m) =>
      [m] + (if "children" in m && m["children"].JArr? then PreOrderAll(m["children"].items) else [])
    case _ => []
  }

  function PreOrderAll(nodes: seq<Json>): seq<Dict>
    decreases nodes, 0
  {
    if |nodes| == 0 then [] else PreOrder(nodes[0]) + PreOrderAll(nodes[1..])
  }

  /** The url nodes among `nodes`, in order. */
  function UrlNodes(nodes: seq<Dict>): (us: seq<Dict>)
    ensures |us| <= |nodes|
    ensures forall i :: 0 <= i < |us| ==> IsUrlNode(us[i]) && us[i] in nodes
  {
    if |nodes| == 0 then []
    else (if IsUrlNode(nodes[0]) then [nodes[0]] else []) + UrlNodes(nodes[1..])
  }

  function Entries(nodes: seq<Dict>): (es: seq<Bookmark>)
    ensures |es| == |nodes|
    ensures forall i :: 0 <= i < |nodes| ==> es[i] == EntryOf(nodes[i])
  {
    if |nodes| == 0 then [] else [EntryOf(nodes[0])] + Entries(nodes[1..])
  }

  lemma {:induction false} UrlNodesAppend(a: seq<Dict>, b: seq<Dict>)
    ensures UrlNodes(a + b) == UrlNodes(a) + UrlNodes(b)
  {
    if |a| > 0 {
      assert (a + b)[1..] == a[1..] + b;
      UrlNodesAppend(a[1..], b);
    } else {
      assert a + b == b;
    }
  }

  lemma EntriesAppend(a: seq<Dict>, b: seq<Dict>)
    ensures Entries(a + b) == Entries(a) + Entries(b)
  {
  }

  /** The walk raises exactly on the trees that are not well formed. */
  lemma {:induction false} ExtractSucceedsIffWellFormed(node: Json)
    ensures Extract(node).Some? <==> WellFormed(node)
    decreases node, 1
  {
    match node
    case JObj(m) =>
      if "children" in m && m["children"].JArr? {
        ExtractAllSucceedsIffWellFormed(m["children"].items);
      }
    case _ =>
  }

  lemma {:induction false} ExtractAllSucceedsIffWellFormed(nodes: seq<Json>)
    ensures ExtractAll(nodes).Some? <==> AllWellFormed(nodes)
    decreases nodes, 0
  {
    if |nodes| > 0 {
      ExtractSucceedsIffWellFormed(nodes[0]);
      ExtractAllSucceedsIffWellFormed(nodes[1..]);
    }
  }

  /**
    What the walk collects: one entry for every url node, in pre-order, and
    nothing else; so the number of entries is the number of url nodes.
   */
  lemma {:induction false} ExtractIsPreOrder(node: Json)
    requires Extract(node).Some?
    ensures Extract(node).value == Entries(UrlNodes(PreOrder(node)))
    decreases node, 1
  {
    match node
    case JObj(m) =>
      if "children" in m && m["children"].JArr? {
        var items := m["children"].items;
        ExtractAllIsPreOrder(items);
        UrlNodesAppend([m], PreOrderAll(items));
        EntriesAppend(UrlNodes([m]), UrlNodes(PreOrderAll(items)));
      } else {
        assert PreOrder(node) == [m] + [];
      }
  }

  lemma {:induction false} ExtractAllIsPreOrder(nodes: seq<Json>)
    requires ExtractAll(nodes).Some?
    ensures ExtractAll(nodes).value == Entries(UrlNodes(PreOrderAll(nodes)))
    decreases nodes, 0
  {
    if |nodes| > 0 {
      ExtractIsPreOrder(nodes[0]);
      ExtractAllIsPreOrder(nodes[1..]);
      UrlNodesAppend(PreOrder(nodes[0]), PreOrderAll(nodes[1..]));
      EntriesAppend(UrlNodes(PreOrder(nodes[0])), UrlNodes(PreOrderAll(nodes[1..])));
    }
  }

  // ---------------------------------------------------------------------------
  // parse_chrome_bookmarks
  // ---------------------------------------------------------------------------

  predicate OccursAt(a: string, s: string, i: nat) {
    i + |a| <= |s| && s[i..i + |a|] == a
  }

  /** `a` occurs in `s` as a contiguous piece (`a in s` on strings). */
  predicate IsSubstring(a: string, s: string) {
    exists i: nat | i <= |s| :: OccursAt(a, s, i)
  }

  /** `for root_name in names: if root_name in roots: extract_bookmarks(roots[root_name])`, over a `dict`. */
  function VisitRoots(roots: Dict, names: seq<string>): (r: Option<seq<Bookmark>>)
  {
    if |names| == 0 then Some([])
    else
      var first := if names[0] in roots then Extract(roots[names[0]]) else Some([]);
      match first
      case None => None
      case Some(es) =>
        match VisitRoots(roots, names[1..])
        case None => None
        case Some(rest) => Some(es + rest)
  }

  /**
    The root loop for whatever `data.get('roots', {})` returned. On a list
    `root_name in roots` compares with the items and on a string it looks for
    a substring; a hit then fails at `roots[root_name]`, which neither
    accepts a string index. Other values do not support `in` at all.
   */
  function WalkRoots(roots: Json): (r: Option<seq<Bookmark>>)
  {
    match roots
    case JObj(r) => VisitRoots(r, RootNames)
    case JArr(items) => if exists n :: n in RootNames && JStr(n) in items then None else Some([])
    case JStr(s) => if exists n :: n in RootNames && IsSubstring(n, s) then None else Some([])
    case _ => None
  }

  /**
    `parse_chrome_bookmarks(file_path)` given the outcome of reading and
    decoding the file (`None` when opening, reading or `json.load` fails).
    Anything that raises yields `[]`.
   */
  function ParseChromeBookmarks(data: Option<Json>): (r: seq<Bookmark>)
    ensures data.None? ==> r == []
  {
    match data
    case Some(JObj(d)) =>
      (match WalkRoots(Get(d, "roots", JObj(map[])))
       case Some(es) => es
       case None => [])
    case _ => []
  }

  /** With `roots` a `dict`, the result is what the root loop collects, or `[]` if it raises. */
  lemma ParseOfDictRoots(d: Dict, r: Dict)
    requires "roots" in d && d["roots"] == JObj(r)
    ensures ParseChromeBookmarks(Some(JObj(d))) == VisitRoots(r, RootNames).GetOr([])
  {
    assert Get(d, "roots", JObj(map[])) == JObj(r);
  }

  /** One folder of the loop, when it is present and walks without raising. */
  lemma VisitRootsPresent(roots: Dict, names: seq<string>)
    requires |names| > 0 && names[0] in roots && Extract(roots[names[0]]).Some?
    requires VisitRoots(roots, names[1..]).Some?
    ensures VisitRoots(roots, names) == Some(Extract(roots[names[0]]).value + VisitRoots(roots, names[1..]).value)
  {
  }

  /** One folder of the loop, when it is absent. */
  lemma VisitRootsAbsent(roots: Dict, names: seq<string>)
    requires |names| > 0 && names[0] !in roots
    ensures VisitRoots(roots, names) == VisitRoots(roots, names[1..])
  {
    if VisitRoots(roots, names[1..]).Some? {
      assert [] + VisitRoots(roots, names[1..]).value == VisitRoots(roots, names[1..]).value;
    }
  }

  /** A folder that raises anywhere in the loop makes the whole loop raise. */
  lemma {:induction false} VisitRootsFails(roots: Dict, names: seq<string>, k: nat)
    requires k < |names| && names[k] in roots && Extract(roots[names[k]]).None?
    ensures VisitRoots(roots, names).None?
  {
    if k > 0 {
      VisitRootsFails(roots, names[1..], k - 1);
    }
  }

  /** The root loop over three present folders that walk without raising. */
  lemma VisitThreeRoots(r: Dict)
    requires forall n :: n in RootNames ==> n in r && Extract(r[n]).Some?
    ensures VisitRoots(r, RootNames)
         == Some(Extract(r["bookmark_bar"]).value + Extract(r["other"]).value + Extract(r["synced"]).value)
  {
    var eb, eo, es := Extract(r["bookmark_bar"]).value, Extract(r["other"]).value, Extract(r["synced"]).value;
    var n3 := ["synced"];
    var n2 := ["other"] + n3;
    assert "bookmark_bar" in RootNames && "other" in RootNames && "synced" in RootNames;
    assert VisitRoots(r, n3) == Some(es) by {
      assert n3[1..] == [];
      VisitRootsPresent(r, n3);
      assert es + [] == es;
    }
    assert VisitRoots(r, n2) == Some(eo + es) by {
      assert n2[1..] == n3;
      VisitRootsPresent(r, n2);
    }
    assert VisitRoots(r, RootNames) == Some(eb + (eo + es)) by {
      assert RootNames == ["bookmark_bar"] + n2 && RootNames[1..] == n2;
      VisitRootsPresent(r, RootNames);
    }
    assert eb + (eo + es) == eb + eo + es;
  }

  /**
    With the roots a `dict` whose three folders walk without raising, the
    result is the bookmark bar's url nodes, then the other folder's, then the
    synced folder's, each in pre-order.
   */
  lemma ParseVisitsRootsInOrder(d: Dict, r: Dict)
    requires "roots" in d && d["roots"] == JObj(r)
    requires forall n :: n in RootNames ==> n in r && WellFormed(r[n])
    ensures ParseChromeBookmarks(Some(JObj(d)))
         == Entries(UrlNodes(PreOrder(r["bookmark_bar"])))
          + Entries(UrlNodes(PreOrder(r["other"])))
          + Entries(UrlNodes(PreOrder(r["synced"])))
  {
    forall n | n in RootNames ensures n in r && Extract(r[n]).Some? {
      ExtractSucceedsIffWellFormed(r[n]);
    }
    assert "bookmark_bar" in RootNames && "other" in RootNames && "synced" in RootNames;
    ExtractIsPreOrder(r["bookmark_bar"]);
    ExtractIsPreOrder(r["other"]);
    ExtractIsPreOrder(r["synced"]);
    VisitThreeRoots(r);
    ParseOfDictRoots(d, r);
  }

  /** Root keys other than the three folders are ignored. */
  lemma {:induction false} OtherRootsIgnored(roots: Dict, key: string, value: Json, names: seq<string>)
    requires key !in names
    ensures VisitRoots(roots[key := value], names) == VisitRoots(roots, names)
  {
    if |names| > 0 {
      OtherRootsIgnored(roots, key, value, names[1..]);
    }
  }

  /** A file without `roots`, or whose root folders are all missing, gives no bookmarks. */
  lemma MissingRootsGiveNothing(d: Dict)
    requires "roots" !in d || (d["roots"].JObj? && forall n :: n in RootNames ==> n !in d["roots"].fields)
    ensures ParseChromeBookmarks(Some(JObj(d))) == []
  {
    var r := Get(d, "roots", JObj(map[])).fields;
    assert Get(d, "roots", JObj(map[])) == JObj(r);
    var n3 := ["synced"];
    var n2 := ["other"] + n3;
    assert RootNames == ["bookmark_bar"] + n2;
    assert n3[1..] == [] && n2[1..] == n3 && RootNames[1..] == n2;
    assert "bookmark_bar" !in r && "other" !in r && "synced" !in r;
    VisitRootsAbsent(r, n3);
    VisitRootsAbsent(r, n2);
    VisitRootsAbsent(r, RootNames);
  }

  /**
    Roots that are not a `dict` never yield a bookmark: a list or string
    either raises at `roots[root_name]` or holds none of the folder names, and
    other values raise at `in`.
   */
  lemma NonDictRootsGiveNothing(d: Dict)
    requires "roots" in d && !d["roots"].JObj?
    ensures ParseChromeBookmarks(Some(JObj(d))) == []
  {
    assert Get(d, "roots", JObj(map[])) == d["roots"];
  }

  /** Data that is not a JSON object has no `.get` and yields no bookmarks. */
  lemma NonDictDataGivesNothing(data: Json)
    requires !data.JObj?
    ensures ParseChromeBookmarks(Some(data)) == []
  {
  }

  /** One folder that raises discards everything the other folders would have contributed. */
  lemma FailingFolderDiscardsAll(d: Dict, name: string)
    requires "roots" in d && d["roots"].JObj?
    requires name in RootNames && name in d["roots"].fields && !WellFormed(d["roots"].fields[name])
    ensures ParseChromeBookmarks(Some(JObj(d))) == []
  {
    var r := d["roots"].fields;
    ExtractSucceedsIffWellFormed(r[name]);
    var k :| 0 <= k < |RootNames| && RootNames[k] == name;
    VisitRootsFails(r, RootNames, k);
    assert Get(d, "roots", JObj(map[])) == JObj(r);
  }

  /**
    Children are walked under url nodes too: a url node with one url child
    yields two entries, the parent's first.
   */
  lemma ChildrenOfUrlNodeVisited(parent: Dict, child: Dict)
    requires IsUrlNode(parent) && IsUrlNode(child) && "children" !in child
    requires "children" in parent && parent["children"] == JArr([JObj(child)])
    ensures Extract(JObj(parent)) == Some([EntryOf(parent), EntryOf(child)])
  {
    assert Extract(JObj(child)) == Some([EntryOf(child)]);
    assert [JObj(child)][1..] == [];
    assert ExtractAll([JObj(child)]) == Some([EntryOf(child)] + []);
    var items := parent["children"].items;
    assert items == [JObj(child)];
    assert [EntryOf(parent)] + [EntryOf(child)] == [EntryOf(parent), EntryOf(child)];
    assert [EntryOf(child)] + [] == [EntryOf(child)];
    assert ExtractAll(items) == Some([EntryOf(child)]);
    var own := if IsUrlNode(parent) then [EntryOf(parent)] else [];
    assert own == [EntryOf(parent)];
    assert "children" in parent;
    assert Extract(JObj(parent)) == Some(own + [EntryOf(child)]);
  }
}
