/**
 The vector-store adapter (`backend/rag/retriever.py`): an in-memory point
 collection that documents are appended to, searched and deleted from by
 source. Embedding, cosine scoring and the nearest-neighbour ranking are
 foreign calls and appear as function parameters; a point id minted by
 `uuid4` is modelled as the next value of a counter, so fresh ids are exactly
 the ones not minted before.
 */
module Retriever {
  import opened Text
  import opened Json

  const CollectionName: string := "devflow_documents"
  /** The dimension the collection is created with (all-MiniLM-L6-v2 vectors). */
  const VectorSize: nat := 384
  /** The payload key the chunk text is stored under. */
  const TextKey: string := "text"
  /** The payload key `delete_by_source` filters on. */
  const SourceKey: string := "source_id"

  type Vector = seq<real>

  datatype Point = Point(id: nat, vector: Vector, payload: Dict)

  /** The stored points in insertion order, and how many ids have been minted so far. */
  datatype Collection = Collection(points: seq<Point>, minted: nat)

  /** Every stored id was minted earlier, and no two stored points share one. */
  ghost predicate Valid(c: Collection) {
    && (forall i :: 0 <= i < |c.points| ==> c.points[i].id < c.minted)
    && (forall i, j :: 0 <= i < j < |c.points| ==> c.points[i].id != c.points[j].id)
  }

  /** The collection `Retriever()` starts from: in memory, so always empty. */
  function NewCollection(): (c: Collection)
    ensures Valid(c) && Count(c) == 0
  {
    Collection([], 0)
  }

  /** `count()`: the number of stored points. */
  function Count(c: Collection): nat {
    |c.points|
  }

  // ---------------------------------------------------------------------------
  // add_documents
  // ---------------------------------------------------------------------------

  /** `{**metadata, "text": doc}`: the metadata with `"text"` set to the document, overriding any earlier value. */
  function Payload(metadata: Dict, doc: string): (p: Dict)
    ensures p.Keys == metadata.Keys + {TextKey}
    ensures p[TextKey] == JStr(doc)
    ensures forall k :: k in metadata && k != TextKey ==> p[k] == metadata[k]
  {
    metadata[TextKey := JStr(doc)]
  }

  /**
    The points built for the zipped documents, metadata and caller ids: one
    per triple, ids minted from `next` on. The caller ids are not used.
   */
  function NewPoints(docs: seq<string>, metas: seq<Dict>, ids: seq<string>, next: nat,
                     embed: string -> Vector): (ps: seq<Point>)
    ensures |ps| == Min(|docs|, Min(|metas|, |ids|))
    ensures forall k :: 0 <= k < |ps| ==>
              ps[k] == Point(next + k, embed(docs[k]), Payload(metas[k], docs[k]))
  {
    if |docs| == 0 || |metas| == 0 || |ids| == 0 then []
    else [Point(next, embed(docs[0]), Payload(metas[0], docs[0]))]
         + NewPoints(docs[1..], metas[1..], ids[1..], next + 1, embed)
  }

  /** `add_documents(documents, metadatas, ids)`: append the new points; nothing stored is replaced. */
  function AddDocuments(c: Collection, docs: seq<string>, metas: seq<Dict>, ids: seq<string>,
                        embed: string -> Vector): (c': Collection)
    ensures Count(c') == Count(c) + Min(|docs|, Min(|metas|, |ids|))
    ensures c'.minted == c.minted + Min(|docs|, Min(|metas|, |ids|))
    ensures c'.points[..Count(c)] == c.points
    ensures forall k :: 0 <= k < Min(|docs|, Min(|metas|, |ids|)) ==>
              c'.points[Count(c) + k] == Point(c.minted + k, embed(docs[k]), Payload(metas[k], docs[k]))
  {
    var ps := NewPoints(docs, metas, ids, c.minted, embed);
    Collection(c.points + ps, c.minted + |ps|)
  }

  /** Adding keeps the ids distinct: every new point gets an id never minted before. */
  lemma AddPreservesValid(c: Collection, docs: seq<string>, metas: seq<Dict>, ids: seq<string>,
                          embed: string -> Vector)
    requires Valid(c)
    ensures Valid(AddDocuments(c, docs, metas, ids, embed))
  {
    var ps := NewPoints(docs, metas, ids, c.minted, embed);
    var c' := AddDocuments(c, docs, metas, ids, embed);
    assert c'.points == c.points + ps;
    forall i, j | 0 <= i < j < |c'.points| ensures c'.points[i].id != c'.points[j].id {
      if j >= |c.points| {
        assert c'.points[j] == ps[j - |c.points|];
        if i >= |c.points| {
          assert c'.points[i] == ps[i - |c.points|];
        } else {
          assert c'.points[i] == c.points[i];
        }
      }
    }
  }

  /** The caller's ids only matter through their number: the stored points are the same whatever they say. */
  lemma AddIgnoresCallerIds(c: Collection, docs: seq<string>, metas: seq<Dict>, ids1: seq<string>,
                            ids2: seq<string>, embed: string -> Vector)
    requires |ids1| == |ids2|
    ensures AddDocuments(c, docs, metas, ids1, embed) == AddDocuments(c, docs, metas, ids2, embed)
  {
    var ps1, ps2 := NewPoints(docs, metas, ids1, c.minted, embed), NewPoints(docs, metas, ids2, c.minted, embed);
    assert ps1 == ps2;
  }

  /**
    Re-adding the same chunks never replaces the earlier points: the count
    grows again, the first copies stay in place, and each second copy has the
    payload of its first copy under another id.
   */
  lemma ReAddAccumulates(c: Collection, docs: seq<string>, metas: seq<Dict>, ids: seq<string>,
                         embed: string -> Vector)
    requires |docs| == |metas| == |ids|
    ensures Count(AddDocuments(AddDocuments(c, docs, metas, ids, embed), docs, metas, ids, embed))
              == Count(c) + 2 * |docs|
    ensures AddDocuments(AddDocuments(c, docs, metas, ids, embed), docs, metas, ids, embed).points[..Count(c) + |docs|]
              == AddDocuments(c, docs, metas, ids, embed).points
    ensures forall k :: 0 <= k < |docs| ==>
              ReAddedCopies(AddDocuments(AddDocuments(c, docs, metas, ids, embed), docs, metas, ids, embed),
                            Count(c), |docs|, k)
  {
    var c2 := AddDocuments(AddDocuments(c, docs, metas, ids, embed), docs, metas, ids, embed);
    forall k | 0 <= k < |docs| ensures ReAddedCopies(c2, Count(c), |docs|, k) {
      ReAddedCopy(c, docs, metas, ids, embed, k);
    }
  }

  /** The `k`-th point of the second add repeats the payload of the `k`-th of the first under another id. */
  lemma ReAddedCopy(c: Collection, docs: seq<string>, metas: seq<Dict>, ids: seq<string>,
                    embed: string -> Vector, k: nat)
    requires k < |docs| == |metas| == |ids|
    ensures ReAddedCopies(AddDocuments(AddDocuments(c, docs, metas, ids, embed), docs, metas, ids, embed),
                          Count(c), |docs|, k)
  {
    var c1 := AddDocuments(c, docs, metas, ids, embed);
    var ps1 := NewPoints(docs, metas, ids, c.minted, embed);
    assert c1 == Collection(c.points + ps1, c.minted + |docs|);
    var ps2 := NewPoints(docs, metas, ids, c1.minted, embed);
    var c2 := AddDocuments(c1, docs, metas, ids, embed);
    assert c2.points == c1.points + ps2;
    assert c2.points[Count(c) + k] == c1.points[Count(c) + k] == ps1[k];
    assert c2.points[Count(c1) + k] == ps2[k];
  }

  /**
    The `k`-th of `n` points added at position `first` and the `k`-th of the
    `n` added right after them carry the same payload under different ids.
   */
  ghost predicate ReAddedCopies(c: Collection, first: nat, n: nat, k: nat) {
    first + n + k < |c.points|
    && c.points[first + k].payload == c.points[first + n + k].payload
    && c.points[first + k].id != c.points[first + n + k].id
  }

  // ---------------------------------------------------------------------------
  // search
  // ---------------------------------------------------------------------------

  /** A scored point as the ranking returns it: `r.payload` and `r.score`. */
  datatype Hit = Hit(point: Point, score: real)

  /** The dictionary `search` returns, with index-aligned lists. */
  datatype SearchResult = SearchResult(documents: seq<Json>, metadatas: seq<Dict>, distances: seq<real>)

  /** The positions of `positions` that name one of `n` stored points, in their order. */
  function InRange(positions: seq<nat>, n: nat): (vs: seq<nat>)
    ensures forall i :: 0 <= i < |vs| ==> vs[i] < n
    ensures forall x :: x in vs <==> x in positions && x < n
  {
    if |positions| == 0 then []
    else if positions[0] < n then [positions[0]] + InRange(positions[1..], n)
    else InRange(positions[1..], n)
  }

  /**
    The collection's answer to `client.search(query_vector, limit)`: the
    points at the positions `rank` lists (positions outside the collection
    are ignored), scored by `score`, the first `limit` of them in rank order.
   */
  function Hits(points: seq<Point>, positions: seq<nat>, q: Vector, limit: nat,
                score: (Vector, Vector) -> real): (hits: seq<Hit>)
    ensures |hits| == Min(limit, |InRange(positions, |points|)|)
    ensures forall i :: 0 <= i < |hits| ==>
              hits[i] == Hit(points[InRange(positions, |points|)[i]],
                             score(q, points[InRange(positions, |points|)[i]].vector))
  {
    if |positions| == 0 || limit == 0 then []
    else if positions[0] < |points| then
      var p := points[positions[0]];
      [Hit(p, score(q, p.vector))] + Hits(points, positions[1..], q, limit - 1, score)
    else Hits(points, positions[1..], q, limit, score)
  }

  /** `{k: v for k, v in payload.items() if k != "text"}`. */
  function WithoutText(payload: Dict): (m: Dict)
    ensures m.Keys == payload.Keys - {TextKey}
    ensures forall k :: k in m ==> m[k] == payload[k]
  {
    payload - {TextKey}
  }

  /** The three lists `search` builds from its hits, one entry per hit, in hit order. */
  function Shape(hits: seq<Hit>): (r: SearchResult)
    ensures |r.documents| == |hits| && |r.metadatas| == |hits| && |r.distances| == |hits|
    ensures forall i :: 0 <= i < |hits| ==>
              && r.documents[i] == Get(hits[i].point.payload, TextKey, JStr(""))
              && r.metadatas[i] == WithoutText(hits[i].point.payload)
              && r.distances[i] == hits[i].score
  {
    if |hits| == 0 then SearchResult([], [], [])
    else
      var h, rest := hits[0], Shape(hits[1..]);
      SearchResult([Get(h.point.payload, TextKey, JStr(""))] + rest.documents,
                   [WithoutText(h.point.payload)] + rest.metadatas,
                   [h.score] + rest.distances)
  }

  /**
    `search(query, n_results)`: one entry per hit, index-aligned in the
    ranking's order; all three lists are empty exactly when there is no hit.
   */
  function Search(c: Collection, query: string, nResults: nat, embed: string -> Vector,
                  rank: (Vector, seq<Point>) -> seq<nat>, score: (Vector, Vector) -> real): (r: SearchResult)
    ensures |r.documents| == |r.metadatas| == |r.distances|
              == Min(nResults, |InRange(rank(embed(query), c.points), |c.points|)|)
    ensures forall i :: 0 <= i < |r.documents| ==>
              SearchEntryIs(r, i, c.points[InRange(rank(embed(query), c.points), |c.points|)[i]],
                            score(embed(query), c.points[InRange(rank(embed(query), c.points), |c.points|)[i]].vector))
  {
    var q := embed(query);
    var hits := Hits(c.points, rank(q, c.points), q, nResults, score);
    if |hits| == 0 then SearchResult([], [], []) else Shape(hits)
  }

  /** Entry `i` of a search result is the text, the metadata without `"text"`, and the score of point `p`. */
  ghost predicate SearchEntryIs(r: SearchResult, i: nat, p: Point, distance: real) {
    && i < |r.documents| && i < |r.metadatas| && i < |r.distances|
    && r.documents[i] == Get(p.payload, TextKey, JStr(""))
    && r.metadatas[i] == WithoutText(p.payload)
    && r.distances[i] == distance
  }

  /** Every entry of a search result comes from a stored point, with that point's score. */
  lemma SearchFromStoredPoints(c: Collection, query: string, nResults: nat, embed: string -> Vector,
                               rank: (Vector, seq<Point>) -> seq<nat>, score: (Vector, Vector) -> real, i: nat)
    requires i < |Search(c, query, nResults, embed, rank, score).documents|
    ensures var r := Search(c, query, nResults, embed, rank, score);
      exists p :: p in c.points
        && r.documents[i] == Get(p.payload, TextKey, JStr(""))
        && r.metadatas[i] == WithoutText(p.payload)
        && r.distances[i] == score(embed(query), p.vector)
  {
    var p := c.points[InRange(rank(embed(query), c.points), |c.points|)[i]];
    assert p in c.points;
  }

  /**
    Round trip: a document stored with metadata `m` that has no `"text"` key
    comes back from a hit as exactly the document and `m`.
   */
  lemma PayloadRoundTrip(metadata: Dict, doc: string)
    requires TextKey !in metadata
    ensures Get(Payload(metadata, doc), TextKey, JStr("")) == JStr(doc)
    ensures WithoutText(Payload(metadata, doc)) == metadata
  {
    assert WithoutText(Payload(metadata, doc)).Keys == metadata.Keys;
  }

  /** A metadata `"text"` entry is lost: the hit shows the document instead and no `"text"` metadata. */
  lemma PayloadTextOverridden(metadata: Dict, doc: string)
    requires TextKey in metadata && metadata[TextKey] != JStr(doc)
    ensures Get(Payload(metadata, doc), TextKey, JStr("")) == JStr(doc)
    ensures WithoutText(Payload(metadata, doc)) != metadata
  {
    assert TextKey !in WithoutText(Payload(metadata, doc));
  }

  /** A point found by search after `add_documents` gives back the text and metadata it was added with. */
  lemma AddedPointRoundTrip(c: Collection, docs: seq<string>, metas: seq<Dict>, ids: seq<string>,
                            embed: string -> Vector, k: nat)
    requires k < Min(|docs|, Min(|metas|, |ids|))
    requires TextKey !in metas[k]
    ensures var p := AddDocuments(c, docs, metas, ids, embed).points[Count(c) + k];
      && Shape([Hit(p, 0.0)]).documents == [JStr(docs[k])]
      && Shape([Hit(p, 0.0)]).metadatas == [metas[k]]
  {
    PayloadRoundTrip(metas[k], docs[k]);
  }

  // ---------------------------------------------------------------------------
  // delete_by_source
  // ---------------------------------------------------------------------------

  /**
    The filter `{"key": "source_id", "match": {"value": s}}`: the payload
    value equals `s`, or is an array holding `s`.
   */
  predicate MatchesSource(p: Point, s: int) {
    SourceKey in p.payload &&
    match p.payload[SourceKey]
    case JArr(items) => JNum(s) in items
    case v => v == JNum(s)
  }

  /** The points that survive the filter, in their order. */
  function Surviving(points: seq<Point>, s: int): (rest: seq<Point>)
    ensures |rest| <= |points|
    ensures forall p :: p in rest <==> p in points && !MatchesSource(p, s)
  {
    if |points| == 0 then []
    else if MatchesSource(points[0], s) then Surviving(points[1..], s)
    else [points[0]] + Surviving(points[1..], s)
  }

  /** `delete_by_source(source_id)`. */
  function DeleteBySource(c: Collection, s: int): (c': Collection)
    ensures forall p :: p in c'.points <==> p in c.points && !MatchesSource(p, s)
    ensures c'.minted == c.minted
  {
    Collection(Surviving(c.points, s), c.minted)
  }

  /** How many stored points carry source `s`. */
  function CountMatches(points: seq<Point>, s: int): nat {
    if |points| == 0 then 0
    else (if MatchesSource(points[0], s) then 1 else 0) + CountMatches(points[1..], s)
  }

  /** `count()` drops by exactly the number of points that matched. */
  lemma {:induction false} DeleteCount(points: seq<Point>, s: int)
    ensures |Surviving(points, s)| == |points| - CountMatches(points, s)
  {
    if |points| > 0 {
      DeleteCount(points[1..], s);
    }
  }

  /** `a` is `b` with some elements left out, the others in their relative order. */
  ghost predicate IsSubsequence<T>(a: seq<T>, b: seq<T>)
    decreases |b|
  {
    if |b| == 0 then |a| == 0
    else (|a| > 0 && a[0] == b[0] && IsSubsequence(a[1..], b[1..])) || IsSubsequence(a, b[1..])
  }

  /** Deleting keeps the surviving points in their insertion order. */
  lemma {:induction false} DeleteKeepsOrder(points: seq<Point>, s: int)
    ensures IsSubsequence(Surviving(points, s), points)
  {
    if |points| > 0 {
      DeleteKeepsOrder(points[1..], s);
      var rest := Surviving(points[1..], s);
      if !MatchesSource(points[0], s) {
        assert ([points[0]] + rest)[1..] == rest;
      }
    }
  }

  /** Points of other sources are all kept: nothing but the matching points is removed. */
  lemma DeleteKeepsOthers(points: seq<Point>, s: int)
    requires forall i :: 0 <= i < |points| ==> !MatchesSource(points[i], s)
    ensures Surviving(points, s) == points
  {
    if |points| > 0 {
      DeleteKeepsOthers(points[1..], s);
    }
  }

  /** Deleting a source twice is deleting it once. */
  lemma DeleteIdempotent(c: Collection, s: int)
    ensures DeleteBySource(DeleteBySource(c, s), s) == DeleteBySource(c, s)
  {
    var rest := DeleteBySource(c, s).points;
    DeleteKeepsOthers(rest, s);
  }

  /** Deleting keeps ids distinct and minted. */
  lemma DeletePreservesValid(c: Collection, s: int)
    requires Valid(c)
    ensures Valid(DeleteBySource(c, s))
  {
    var a := Surviving(c.points, s);
    SubsequenceDistinctIds(a, c.points, s);
    forall i | 0 <= i < |a| ensures a[i].id < c.minted {
      assert a[i] in c.points;
      var j :| 0 <= j < |c.points| && c.points[j] == a[i];
    }
  }

  /** Ids stay distinct in a subsequence. */
  lemma {:induction false} SubsequenceDistinctIds(a: seq<Point>, b: seq<Point>, s: int)
    requires a == Surviving(b, s)
    requires forall i, j :: 0 <= i < j < |b| ==> b[i].id != b[j].id
    ensures forall i, j :: 0 <= i < j < |a| ==> a[i].id != a[j].id
    decreases |b|
  {
    if |b| > 0 {
      var rest := Surviving(b[1..], s);
      SubsequenceDistinctIds(rest, b[1..], s);
      if !MatchesSource(b[0], s) {
        forall q | q in rest ensures q.id != b[0].id {
          HeadIdNotInTail(b, q);
        }
        DistinctIdsCons(b[0], rest);
      }
    }
  }

  /** In a list of distinct ids, no later point shares the first point's id. */
  lemma HeadIdNotInTail(b: seq<Point>, q: Point)
    requires |b| > 0 && q in b[1..]
    requires forall i, j :: 0 <= i < j < |b| ==> b[i].id != b[j].id
    ensures q.id != b[0].id
  {
    var k :| 0 <= k < |b[1..]| && b[1..][k] == q;
    assert b[k + 1] == q;
  }

  /** A point whose id none of a list of distinct ids has can be put in front of it. */
  lemma DistinctIdsCons(p: Point, rest: seq<Point>)
    requires forall i, j :: 0 <= i < j < |rest| ==> rest[i].id != rest[j].id
    requires forall q :: q in rest ==> q.id != p.id
    ensures forall i, j :: 0 <= i < j < |[p] + rest| ==> ([p] + rest)[i].id != ([p] + rest)[j].id
  {
    var a := [p] + rest;
    forall i, j | 0 <= i < j < |a| ensures a[i].id != a[j].id {
      assert a[j] == rest[j - 1];
      if i > 0 {
        assert a[i] == rest[i - 1];
      }
    }
  }

  /** After `delete_by_source(s)` no search, whatever the query and ranking, returns a point of source `s`. */
  lemma SearchAfterDelete(c: Collection, s: int, query: string, nResults: nat, embed: string -> Vector,
                          rank: (Vector, seq<Point>) -> seq<nat>, score: (Vector, Vector) -> real, i: nat)
    requires i < |Search(DeleteBySource(c, s), query, nResults, embed, rank, score).metadatas|
    ensures var m := Search(DeleteBySource(c, s), query, nResults, embed, rank, score).metadatas[i];
      !(SourceKey in m && m[SourceKey] == JNum(s))
  {
    var c' := DeleteBySource(c, s);
    SearchFromStoredPoints(c', query, nResults, embed, rank, score, i);
  }

  /** Three points of sources 1, 1 and 2: deleting source 1 leaves one point, the one of source 2. */
  lemma DeleteScenario(v: Vector)
    ensures var p1 := Point(0, v, map[SourceKey := JNum(1)]);
      var p2 := Point(1, v, map[SourceKey := JNum(1)]);
      var p3 := Point(2, v, map[SourceKey := JNum(2)]);
      var c' := DeleteBySource(Collection([p1, p2, p3], 3), 1);
      Count(c') == 1 && SourceKey in c'.points[0].payload && c'.points[0].payload[SourceKey] == JNum(2)
  {
    var p1 := Point(0, v, map[SourceKey := JNum(1)]);
    var p2 := Point(1, v, map[SourceKey := JNum(1)]);
    var p3 := Point(2, v, map[SourceKey := JNum(2)]);
    assert MatchesSource(p1, 1) && MatchesSource(p2, 1) && !MatchesSource(p3, 1);
    assert [p1, p2, p3][1..] == [p2, p3];
    assert [p2, p3][1..] == [p3];
    assert [p3][1..] == [];
    assert Surviving([p3], 1) == [p3];
    assert Surviving([p1, p2, p3], 1) == [p3];
  }
}
