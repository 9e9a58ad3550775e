/** The conversion itself (SwaggerConvert.py lines 20-148): a left fold over
    the listing's controller references that builds the tag list and the
    `paths` table, followed by the model translation and the clean-up
    sweep. The network is abstracted away: the root listing is an input
    (None when its fetch failed) and each declaration comes from a resolver
    (None when its fetch failed, which reads like the `{}` returned then). */
module Convert {
  import opened Wrappers
  import opened Text
  import S12 = Swagger12
  import S20 = Swagger20
  import opened Translate
  import opened Tags
  import Seqs

  const ApiDocsSuffix := "api-docs"
  const DefaultVersion := "1.0"

  /** The listing URL together with the parts `urlparse` extracts from it. */
  datatype Origin = Origin(url: string, scheme: string, netloc: string, path: string)

  /** Fetches the API declaration of a controller path. */
  type Resolver = string -> Option<S12.Declaration>

  // ---------------------------------------------------------------------
  // Operations bound for paths[path][method]
  // ---------------------------------------------------------------------

  /** The insertions one endpoint makes, in operation order: each operation
      translated and bound for the endpoint's path and its lower-cased
      method. */
  function OperationEntries(path: string, ops: seq<S12.Operation>, tag: string): (r: seq<S20.Entry>)
    ensures |r| == |ops|
    ensures forall k :: 0 <= k < |ops| ==>
      r[k] == S20.Entry(path, ToLower(ops[k].httpMethod), TranslateOperation(ops[k], tag))
  {
    seq(|ops|, k requires 0 <= k < |ops| => S20.Entry(path, ToLower(ops[k].httpMethod), TranslateOperation(ops[k], tag)))
  }

  /** The number of operations of the endpoints, in total. */
  function OperationCount(endpoints: seq<S12.Api>): nat
    decreases |endpoints|
  {
    if |endpoints| == 0 then 0
    else OperationCount(endpoints[..|endpoints| - 1]) + |endpoints[|endpoints| - 1].operations|
  }

  /** Where operation `j` of endpoint `i` lands among a declaration's
      insertions: after the operations of the endpoints before it. */
  function OperationIndex(endpoints: seq<S12.Api>, i: int, j: int): int
    requires 0 <= i <= |endpoints|
  {
    OperationCount(endpoints[..i]) + j
  }

  /** The insertions a declaration makes, endpoint by endpoint; one per
      operation, and every one carries the controller's tag and nothing
      else. */
  function EndpointEntries(endpoints: seq<S12.Api>, tag: string): (r: seq<S20.Entry>)
    ensures |r| == OperationCount(endpoints)
    ensures forall k :: 0 <= k < |r| ==> r[k].op.tags == [tag]
    decreases |endpoints|
  {
    if |endpoints| == 0 then []
    else
      var last := endpoints[|endpoints| - 1];
      EndpointEntries(endpoints[..|endpoints| - 1], tag) + OperationEntries(last.path, last.operations, tag)
  }

  /** Operation `j` of endpoint `i` is inserted, translated, at the endpoint's
      path and its lower-cased method, right after the operations of the
      endpoints before it: every operation of the declaration is inserted,
      in (endpoint, operation) order. */
  lemma {:induction false} EndpointEntriesAt(endpoints: seq<S12.Api>, tag: string, i: int, j: int)
    requires 0 <= i < |endpoints| && 0 <= j < |endpoints[i].operations|
    ensures 0 <= OperationIndex(endpoints, i, j) < |EndpointEntries(endpoints, tag)|
    ensures EndpointEntries(endpoints, tag)[OperationIndex(endpoints, i, j)] ==
      S20.Entry(endpoints[i].path, ToLower(endpoints[i].operations[j].httpMethod),
        TranslateOperation(endpoints[i].operations[j], tag))
    decreases |endpoints|
  {
    var n := |endpoints| - 1;
    var init := endpoints[..n];
    if i < n {
      assert init[..i] == endpoints[..i] && init[i] == endpoints[i];
      EndpointEntriesAt(init, tag, i, j);
      assert OperationIndex(init, i, j) == OperationIndex(endpoints, i, j);
      EndpointEntriesInit(endpoints, tag, n, OperationIndex(endpoints, i, j));
    } else {
      EndpointEntriesLast(endpoints, tag, i, j);
    }
  }

  /** Conversely, every insertion of a declaration is that of some
      operation of some endpoint: the declaration inserts nothing else. */
  lemma {:induction false} EndpointEntriesFrom(endpoints: seq<S12.Api>, tag: string, p: int)
    requires 0 <= p < |EndpointEntries(endpoints, tag)|
    ensures exists i, j ::
              0 <= i < |endpoints| && 0 <= j < |endpoints[i].operations| &&
              p == OperationIndex(endpoints, i, j)
    decreases |endpoints|
  {
    var n := |endpoints| - 1;
    var init := endpoints[..n];
    if p < OperationCount(init) {
      EndpointEntriesFrom(init, tag, p);
      var i, j :| 0 <= i < |init| && 0 <= j < |init[i].operations| && p == OperationIndex(init, i, j);
      assert init[..i] == endpoints[..i] && init[i] == endpoints[i];
      assert p == OperationIndex(endpoints, i, j);
    } else {
      assert p == OperationIndex(endpoints, n, p - OperationCount(init));
    }
  }

  /** The insertions of all endpoints but the last come first, unchanged. */
  lemma EndpointEntriesInit(endpoints: seq<S12.Api>, tag: string, n: int, k: int)
    requires n == |endpoints| - 1 && 0 <= n && 0 <= k < |EndpointEntries(endpoints[..n], tag)|
    ensures k < |EndpointEntries(endpoints, tag)|
    ensures EndpointEntries(endpoints, tag)[k] == EndpointEntries(endpoints[..n], tag)[k]
  {
    var prev := EndpointEntries(endpoints[..n], tag);
    var here := OperationEntries(endpoints[n].path, endpoints[n].operations, tag);
    assert EndpointEntries(endpoints, tag) == prev + here;
    Seqs.AppendLeft(prev, here, k);
  }

  /** The last endpoint's insertions come after those of the others. */
  lemma EndpointEntriesLast(endpoints: seq<S12.Api>, tag: string, i: int, j: int)
    requires i == |endpoints| - 1 && 0 <= i && 0 <= j < |endpoints[i].operations|
    ensures OperationIndex(endpoints, i, j) < |EndpointEntries(endpoints, tag)|
    ensures EndpointEntries(endpoints, tag)[OperationIndex(endpoints, i, j)] ==
      S20.Entry(endpoints[i].path, ToLower(endpoints[i].operations[j].httpMethod),
        TranslateOperation(endpoints[i].operations[j], tag))
  {
    var prev := EndpointEntries(endpoints[..i], tag);
    var here := OperationEntries(endpoints[i].path, endpoints[i].operations, tag);
    assert EndpointEntries(endpoints, tag) == prev + here;
    assert OperationIndex(endpoints, i, j) == |prev| + j;
    Seqs.AppendRight(prev, here, j);
  }

  /** The insertions one controller reference makes: those of the endpoints
      of its fetched declaration, each tagged with the reference's tag name
      alone. A failed fetch reads as `{}`, which has no endpoints, so it
      contributes nothing. */
  function ControllerEntries(ref: S12.ApiRef, resolve: Resolver): (r: seq<S20.Entry>)
    ensures forall k :: 0 <= k < |r| ==> r[k].op.tags == [TagName(ref.path)]
    ensures resolve(ref.path).None? ==> r == []
    ensures resolve(ref.path).Some? ==> |r| == OperationCount(resolve(ref.path).value.apis)
  {
    var d := resolve(ref.path);
    EndpointEntries(if d.Some? then d.value.apis else [], TagName(ref.path))
  }

  // ---------------------------------------------------------------------
  // The fold over the listing
  // ---------------------------------------------------------------------

  /** What one controller reference brings to the loop: the tag it asks
      for and the insertions its fetched declaration makes. */
  datatype Item = Item(tag: S20.Tag, entries: seq<S20.Entry>)

  /** The items of the listing, in listing order. Fetching happens here:
      the tag does not depend on the outcome, and a failed fetch brings no
      insertion. */
  function Items(apis: seq<S12.ApiRef>, resolve: Resolver): (r: seq<Item>)
    ensures |r| == |apis|
    decreases |apis|
  {
    if |apis| == 0 then []
    else
      var ref := apis[|apis| - 1];
      Items(apis[..|apis| - 1], resolve) + [Item(TagOf(ref), ControllerEntries(ref, resolve))]
  }

  /** The converter's state between two controller references. */
  datatype Pass = Pass(tags: seq<S20.Tag>, seen: set<string>, paths: S20.Paths)

  /** The first half of an iteration: append the reference's tag when its
      name has not been seen, and mark the name seen. */
  function RecordTag(st: Pass, t: S20.Tag): (r: Pass)
    ensures |st.tags| <= |r.tags| <= |st.tags| + 1 && r.tags[..|st.tags|] == st.tags
    ensures |r.tags| > |st.tags| ==> r.tags[|st.tags|] == t
    ensures r.tags == st.tags <==> t.name in st.seen
    ensures t.name in r.seen && st.seen <= r.seen && r.paths == st.paths
  {
    var tags := if t.name in st.seen then st.tags else st.tags + [t];
    st.(tags := tags, seen := st.seen + {t.name})
  }

  /** The second half of an iteration: only the paths table changes. */
  function InsertEntries(st: Pass, es: seq<S20.Entry>): (r: Pass)
    ensures r.tags == st.tags && r.seen == st.seen
  {
    Pass(st.tags, st.seen, S20.InsertAll(st.paths, es))
  }

  /** One iteration: the tag is recorded before the operations are
      inserted, and the insertions touch neither the tags nor the seen
      set. */
  function Step(st: Pass, it: Item): (r: Pass)
    ensures |st.tags| <= |r.tags| <= |st.tags| + 1 && r.tags[..|st.tags|] == st.tags
    ensures |r.tags| > |st.tags| ==> r.tags[|st.tags|] == it.tag
    ensures r.tags == st.tags <==> it.tag.name in st.seen
    ensures r.seen == st.seen + {it.tag.name}
    ensures r.paths == S20.InsertAll(st.paths, it.entries)
  {
    InsertEntries(RecordTag(st, it.tag), it.entries)
  }

  /** Runs the loop over the items in order, from the empty state; each
      item adds at most one tag. */
  function Loop(items: seq<Item>): (r: Pass)
    ensures |r.tags| <= |items|
    decreases |items|
  {
    if |items| == 0 then Pass([], {}, map[])
    else Step(Loop(items[..|items| - 1]), items[|items| - 1])
  }

  /** The tags the items ask for, in order. */
  function ItemTags(items: seq<Item>): (r: seq<S20.Tag>)
    ensures |r| == |items|
    decreases |items|
  {
    if |items| == 0 then [] else ItemTags(items[..|items| - 1]) + [items[|items| - 1].tag]
  }

  /** All insertions of the items, item by item. */
  function Insertions(items: seq<Item>): seq<S20.Entry>
    decreases |items|
  {
    if |items| == 0 then [] else Insertions(items[..|items| - 1]) + items[|items| - 1].entries
  }

  /** Recording the next tag keeps the tag list equal to the first
      occurrences met so far, and the seen set equal to their names. */
  lemma RecordTagExtends(st: Pass, ts: seq<S20.Tag>)
    requires |ts| > 0
    requires st.tags == FirstTags(ts[..|ts| - 1])
    requires st.seen == TagNames(ts[..|ts| - 1])
    ensures RecordTag(st, ts[|ts| - 1]).tags == FirstTags(ts)
    ensures RecordTag(st, ts[|ts| - 1]).seen == TagNames(ts)
  {
    FirstTagsExtend(ts, st.tags, st.seen);
  }

  /** The loop's tag list is the list of first occurrences of the items'
      tags, and its seen set holds their names: neither depends on the
      insertions. */
  lemma {:induction false} LoopTags(items: seq<Item>)
    ensures Loop(items).tags == FirstTags(ItemTags(items))
    ensures Loop(items).seen == TagNames(ItemTags(items))
    decreases |items|
  {
    if |items| > 0 {
      var n := |items| - 1;
      var ts := ItemTags(items);
      LoopTags(items[..n]);
      assert ts[..n] == ItemTags(items[..n]);
      RecordTagExtends(Loop(items[..n]), ts);
    }
  }

  /** The loop's paths table is the result of performing all insertions in
      order on an empty table. */
  lemma {:induction false} LoopPaths(items: seq<Item>)
    ensures Loop(items).paths == S20.InsertAll(map[], Insertions(items))
    decreases |items|
  {
    if |items| > 0 {
      var n := |items| - 1;
      LoopPaths(items[..n]);
      S20.InsertAllAppend(map[], Insertions(items[..n]), items[n].entries);
    }
  }

  /** The items ask for the reference tags, in listing order. */
  lemma {:induction false} ItemTagsAreCandidates(apis: seq<S12.ApiRef>, resolve: Resolver)
    ensures ItemTags(Items(apis, resolve)) == Candidates(apis)
    decreases |apis|
  {
    if |apis| > 0 {
      var n := |apis| - 1;
      var items := Items(apis, resolve);
      ItemTagsAreCandidates(apis[..n], resolve);
      assert items[..n] == Items(apis[..n], resolve);
    }
  }

  /** What fetching does to one controller reference. */
  function Fetching(resolve: Resolver): S12.ApiRef -> seq<S20.Entry> {
    ref => ControllerEntries(ref, resolve)
  }

  /** All insertions of the listing, controller by controller. */
  function Contributions(apis: seq<S12.ApiRef>, resolve: Resolver): seq<S20.Entry> {
    Seqs.FlatMap(apis, Fetching(resolve))
  }

  /** The insertions of a listing are those of all but its last reference,
      followed by those of the last one. */
  lemma ContributionsSnoc(apis: seq<S12.ApiRef>, resolve: Resolver)
    requires |apis| > 0
    ensures Contributions(apis, resolve) ==
      Contributions(apis[..|apis| - 1], resolve) + ControllerEntries(apis[|apis| - 1], resolve)
  {
    assert Fetching(resolve)(apis[|apis| - 1]) == ControllerEntries(apis[|apis| - 1], resolve);
  }

  /** The loop performs exactly the listing's insertions, in order. */
  lemma {:induction false} ContributionsAreInsertions(apis: seq<S12.ApiRef>, resolve: Resolver)
    ensures Insertions(Items(apis, resolve)) == Contributions(apis, resolve)
    decreases |apis|
  {
    if |apis| > 0 {
      var items := Items(apis, resolve);
      ContributionsAreInsertions(apis[..|apis| - 1], resolve);
      ContributionsSnoc(apis, resolve);
      assert items[..|apis| - 1] == Items(apis[..|apis| - 1], resolve);
    }
  }

  /** A successful fetch inserts every operation of the declaration, tagged
      with the reference's tag name. */
  lemma ControllerEntriesAt(ref: S12.ApiRef, resolve: Resolver, d: S12.Declaration, i: int, j: int)
    requires resolve(ref.path) == Some(d)
    requires 0 <= i < |d.apis| && 0 <= j < |d.apis[i].operations|
    ensures 0 <= OperationIndex(d.apis, i, j) < |ControllerEntries(ref, resolve)|
    ensures ControllerEntries(ref, resolve)[OperationIndex(d.apis, i, j)] ==
      S20.Entry(d.apis[i].path, ToLower(d.apis[i].operations[j].httpMethod),
        TranslateOperation(d.apis[i].operations[j], TagName(ref.path)))
  {
    EndpointEntriesAt(d.apis, TagName(ref.path), i, j);
  }

  /** Where insertion `k` of reference `i` lands among the listing's
      insertions: after all insertions of the references before it. */
  function ContributionIndex(apis: seq<S12.ApiRef>, resolve: Resolver, i: int, k: int): int
    requires 0 <= i <= |apis|
  {
    Seqs.FlatIndex(apis, Fetching(resolve), i, k)
  }

  /** The insertions of reference `i` come, in order, right after those of
      the references before it. */
  lemma ContributionsAt(apis: seq<S12.ApiRef>, resolve: Resolver, i: int, k: int)
    requires 0 <= i < |apis| && 0 <= k < |ControllerEntries(apis[i], resolve)|
    ensures 0 <= ContributionIndex(apis, resolve, i, k) < |Contributions(apis, resolve)|
    ensures Contributions(apis, resolve)[ContributionIndex(apis, resolve, i, k)] == ControllerEntries(apis[i], resolve)[k]
  {
    assert Fetching(resolve)(apis[i]) == ControllerEntries(apis[i], resolve);
    Seqs.FlatMapAt(apis, Fetching(resolve), i, k);
  }

  /** Every operation of every endpoint of a fetched declaration is among
      the listing's insertions, bound for the endpoint's path and its
      lower-cased method and tagged with the reference's tag name. */
  lemma FetchedOperationContributed(apis: seq<S12.ApiRef>, resolve: Resolver, i: int, d: S12.Declaration, e: int, j: int)
    requires 0 <= i < |apis| && resolve(apis[i].path) == Some(d)
    requires 0 <= e < |d.apis| && 0 <= j < |d.apis[e].operations|
    ensures 0 <= ContributionIndex(apis, resolve, i, OperationIndex(d.apis, e, j)) < |Contributions(apis, resolve)|
    ensures Contributions(apis, resolve)[ContributionIndex(apis, resolve, i, OperationIndex(d.apis, e, j))] ==
      S20.Entry(d.apis[e].path, ToLower(d.apis[e].operations[j].httpMethod),
        TranslateOperation(d.apis[e].operations[j], TagName(apis[i].path)))
  {
    ControllerEntriesAt(apis[i], resolve, d, e, j);
    ContributionsAt(apis, resolve, i, OperationIndex(d.apis, e, j));
  }

  /** Conversely, every insertion of the listing is that of some operation
      of some endpoint of a declaration fetched for one of its references:
      the listing inserts nothing else. */
  lemma ContributionFrom(apis: seq<S12.ApiRef>, resolve: Resolver, k: int)
    requires 0 <= k < |Contributions(apis, resolve)|
    ensures exists i, d, e, j ::
              && 0 <= i < |apis| && resolve(apis[i].path) == Some(d)
              && 0 <= e < |d.apis| && 0 <= j < |d.apis[e].operations|
              && k == ContributionIndex(apis, resolve, i, OperationIndex(d.apis, e, j))
              && Contributions(apis, resolve)[k] ==
                 S20.Entry(d.apis[e].path, ToLower(d.apis[e].operations[j].httpMethod),
                   TranslateOperation(d.apis[e].operations[j], TagName(apis[i].path)))
  {
    Seqs.FlatMapIndexOf(apis, Fetching(resolve), k);
    var i, p :| 0 <= i < |apis| && 0 <= p < |Fetching(resolve)(apis[i])| &&
                k == Seqs.FlatIndex(apis, Fetching(resolve), i, p);
    assert Fetching(resolve)(apis[i]) == ControllerEntries(apis[i], resolve);
    var d := resolve(apis[i].path).value;
    EndpointEntriesFrom(d.apis, TagName(apis[i].path), p);
    var e, j :| 0 <= e < |d.apis| && 0 <= j < |d.apis[e].operations| && p == OperationIndex(d.apis, e, j);
    FetchedOperationContributed(apis, resolve, i, d, e, j);
  }

  /** Insertions follow the listing's order: every insertion of reference
      `i` comes before every insertion of a later reference `i'`. */
  lemma ContributionsOrdered(apis: seq<S12.ApiRef>, resolve: Resolver, i: int, k: int, i': int, k': int)
    requires 0 <= i < i' < |apis|
    requires 0 <= k < |ControllerEntries(apis[i], resolve)| && 0 <= k'
    ensures ContributionIndex(apis, resolve, i, k) < ContributionIndex(apis, resolve, i', k')
  {
    assert Fetching(resolve)(apis[i]) == ControllerEntries(apis[i], resolve);
    Seqs.FlatIndexOrdered(apis, Fetching(resolve), i, k, i', k');
  }

  /** Every insertion is tagged with exactly one tag, the tag name of one of
      the listing's references. */
  lemma {:induction false} ContributionsTagged(apis: seq<S12.ApiRef>, resolve: Resolver, k: int)
    requires 0 <= k < |Contributions(apis, resolve)|
    ensures |Contributions(apis, resolve)[k].op.tags| == 1
    ensures Contributions(apis, resolve)[k].op.tags[0] in NameSet(apis)
    decreases |apis|
  {
    var n := |apis| - 1;
    var prev := Contributions(apis[..n], resolve);
    var mine := ControllerEntries(apis[n], resolve);
    ContributionsSnoc(apis, resolve);
    NameSetSnoc(apis);
    if k < |prev| {
      ContributionsTagged(apis[..n], resolve, k);
      assert Contributions(apis, resolve)[k] == prev[k];
    } else {
      assert Contributions(apis, resolve)[k] == mine[k - |prev|];
    }
  }

  /** Runs the loop over the listing's references: at most one tag per
      reference. */
  function Run(apis: seq<S12.ApiRef>, resolve: Resolver): (r: Pass)
    ensures |r.tags| <= |apis|
  {
    Loop(Items(apis, resolve))
  }

  /** The loop's tag list is the reference list of first occurrences, so it
      does not depend on what the fetches return; the seen set holds the
      names met so far. */
  lemma RunTags(apis: seq<S12.ApiRef>, resolve: Resolver)
    ensures Run(apis, resolve).tags == FirstTags(Candidates(apis))
    ensures Run(apis, resolve).seen == NameSet(apis)
  {
    LoopTags(Items(apis, resolve));
    ItemTagsAreCandidates(apis, resolve);
  }

  /** The loop's paths table is the result of performing all the listing's
      insertions in order on an empty table. */
  lemma RunPaths(apis: seq<S12.ApiRef>, resolve: Resolver)
    ensures Run(apis, resolve).paths == S20.InsertAll(map[], Contributions(apis, resolve))
  {
    LoopPaths(Items(apis, resolve));
    ContributionsAreInsertions(apis, resolve);
  }

  // ---------------------------------------------------------------------
  // The whole conversion
  // ---------------------------------------------------------------------

  /** Converts a listing into a Swagger 2.0 document. None is the empty
      result: the URL does not end in "api-docs" (checked before anything
      is fetched), or the listing could not be fetched. */
  function Convert(origin: Origin, root: Option<S12.Listing>, resolve: Resolver): (r: Option<S20.Document>)
    ensures r.Some? <==> EndsWith(origin.url, "api-docs") && root.Some?
    ensures r.Some? ==> r.value.swagger == "2.0"
    ensures r.Some? ==> r.value.host == origin.netloc && r.value.schemes == [origin.scheme]
    ensures r.Some? ==> r.value.basePath <= origin.path && !EndsWith(r.value.basePath, "/")
    ensures r.Some? ==> forall i :: |r.value.basePath| <= i < |origin.path| ==> origin.path[i] == '/'
    ensures r.Some? ==> "version" in r.value.info && r.value.info["version"] == root.value.apiVersion.GetOr("1.0")
    ensures r.Some? ==> forall key :: key in root.value.info && key != "version" ==>
      key in r.value.info && r.value.info[key] == root.value.info[key]
    ensures r.Some? ==> r.value.info.Keys == root.value.info.Keys + {"version"}
    ensures r.Some? ==> r.value.definitions.Keys == root.value.models.Keys
    ensures r.Some? ==> forall name :: name in root.value.models ==>
      r.value.definitions[name] == TranslateModel(root.value.models[name])
  {
    if !EndsWith(origin.url, ApiDocsSuffix) then None
    else
      match root
      case None => None
      case Some(listing) =>
        var st := Run(listing.apis, resolve);
        var info := listing.info["version" := listing.apiVersion.GetOr(DefaultVersion)];
        Some(S20.Document("2.0", info, origin.netloc, RstripSlash(origin.path), [origin.scheme],
          S20.Cleanup(st.paths), TranslateModels(listing.models), st.tags))
  }

  /** The document's tags: one per distinct tag name of the listing, each
      the tag of the first reference with that name, in listing order,
      whatever the fetches returned. */
  lemma ConvertTags(origin: Origin, listing: S12.Listing, resolve: Resolver)
    requires EndsWith(origin.url, ApiDocsSuffix)
    ensures var doc := Convert(origin, Some(listing), resolve).value;
      && doc.tags == FirstTags(Candidates(listing.apis))
      && DistinctNames(doc.tags)
      && TagNames(doc.tags) == NameSet(listing.apis)
      && |doc.tags| == |NameSet(listing.apis)|
  {
    RunTags(listing.apis, resolve);
    FirstTagsCount(Candidates(listing.apis));
  }

  /** The tags are decided before, and whatever the outcome of, each fetch:
      two resolvers give the same tag list. */
  lemma ConvertTagsIgnoreFetches(origin: Origin, listing: S12.Listing, resolve: Resolver, resolve': Resolver)
    requires EndsWith(origin.url, ApiDocsSuffix)
    ensures Convert(origin, Some(listing), resolve).value.tags == Convert(origin, Some(listing), resolve').value.tags
  {
    RunTags(listing.apis, resolve);
    RunTags(listing.apis, resolve');
  }

  /** With every declaration fetch failing, no insertion is made. */
  lemma {:induction false} NoFetchNoContributions(apis: seq<S12.ApiRef>, resolve: Resolver)
    requires forall p :: resolve(p).None?
    ensures Contributions(apis, resolve) == []
    decreases |apis|
  {
    if |apis| > 0 {
      NoFetchNoContributions(apis[..|apis| - 1], resolve);
      ContributionsSnoc(apis, resolve);
    }
  }

  /** With every declaration fetch failing, the document still lists one
      tag per distinct tag name, and has no paths. */
  lemma ConvertWithoutFetches(origin: Origin, listing: S12.Listing, resolve: Resolver)
    requires EndsWith(origin.url, ApiDocsSuffix)
    requires forall p :: resolve(p).None?
    ensures var doc := Convert(origin, Some(listing), resolve).value;
      doc.paths == map[] && doc.tags == FirstTags(Candidates(listing.apis))
  {
    RunTags(listing.apis, resolve);
    RunPaths(listing.apis, resolve);
    NoFetchNoContributions(listing.apis, resolve);
    var doc := Convert(origin, Some(listing), resolve).value;
    assert doc.paths.Keys == {};
  }

  /** `apis[i]` is the first reference whose path yields its tag name. */
  predicate FirstOfName(apis: seq<S12.ApiRef>, i: int)
    requires 0 <= i < |apis|
  {
    forall j :: 0 <= j < i ==> TagName(apis[j].path) != TagName(apis[i].path)
  }

  /** Every reference that is the first of its name gets its tag, with its
      own description, into the document. */
  lemma ConvertTagsIncludeFirst(origin: Origin, listing: S12.Listing, resolve: Resolver, i: int)
    requires EndsWith(origin.url, ApiDocsSuffix)
    requires 0 <= i < |listing.apis| && FirstOfName(listing.apis, i)
    ensures TagOf(listing.apis[i]) in Convert(origin, Some(listing), resolve).value.tags
  {
    var apis := listing.apis;
    var cs := Candidates(apis);
    RunTags(apis, resolve);
    CandidatesAt(apis, i);
    assert IsFirst(cs, i) by {
      forall j | 0 <= j < i ensures cs[j].name != cs[i].name {
        CandidatesAt(apis, j);
      }
    }
    FirstTagsHasFirst(cs, i);
  }

  /** Every tag of the document is the tag of the first reference with its
      name: a later reference with the same name changes nothing, not even
      the description. */
  lemma ConvertTagsFromFirst(origin: Origin, listing: S12.Listing, resolve: Resolver)
    requires EndsWith(origin.url, ApiDocsSuffix)
    ensures var doc := Convert(origin, Some(listing), resolve).value;
      forall k :: 0 <= k < |doc.tags| ==>
        exists i :: 0 <= i < |listing.apis| && FirstOfName(listing.apis, i) && doc.tags[k] == TagOf(listing.apis[i])
  {
    ConvertTags(origin, listing, resolve);
    FirstTagsOfCandidates(listing.apis);
  }

  /** The reference list of first tags, read back in terms of the
      references: each kept tag is the tag of a first reference. */
  lemma FirstTagsOfCandidates(apis: seq<S12.ApiRef>)
    ensures var tags := FirstTags(Candidates(apis));
      forall k :: 0 <= k < |tags| ==>
        exists i :: 0 <= i < |apis| && FirstOfName(apis, i) && tags[k] == TagOf(apis[i])
  {
    var tags := FirstTags(Candidates(apis));
    forall k | 0 <= k < |tags|
      ensures exists i :: 0 <= i < |apis| && FirstOfName(apis, i) && tags[k] == TagOf(apis[i])
    {
      FirstTagOfCandidates(apis, k);
    }
  }

  /** The same, for the kept tag at position `k`. */
  lemma FirstTagOfCandidates(apis: seq<S12.ApiRef>, k: int)
    ensures 0 <= k < |FirstTags(Candidates(apis))| ==>
      exists i :: 0 <= i < |apis| && FirstOfName(apis, i) && FirstTags(Candidates(apis))[k] == TagOf(apis[i])
  {
    var cs := Candidates(apis);
    if 0 <= k < |FirstTags(cs)| {
      FirstTagsFromFirst(cs, k);
      var i :| 0 <= i < |cs| && IsFirst(cs, i) && FirstTags(cs)[k] == cs[i];
      CandidatesAt(apis, i);
      assert FirstOfName(apis, i) by {
        forall j | 0 <= j < i ensures TagName(apis[j].path) != TagName(apis[i].path) {
          CandidatesAt(apis, j);
          assert cs[j].name != cs[i].name;
        }
      }
    }
  }

  /** Each (path, method) of the document holds the cleaned operation of the
      last insertion bound for it, and is absent when no insertion was; the
      document has a path exactly when some insertion was bound for it. */
  lemma ConvertPathsLastWriteWins(origin: Origin, listing: S12.Listing, resolve: Resolver, path: string, verb: string)
    requires EndsWith(origin.url, ApiDocsSuffix)
    ensures var doc := Convert(origin, Some(listing), resolve).value;
      var cs := Contributions(listing.apis, resolve);
      S20.Lookup(doc.paths, path, verb) ==
        match S20.LastWriter(cs, path, verb)
        case Some(k) => Some(S20.CleanOperation(cs[k].op))
        case None => None
    ensures var doc := Convert(origin, Some(listing), resolve).value;
      var cs := Contributions(listing.apis, resolve);
      path in doc.paths <==> exists k :: 0 <= k < |cs| && cs[k].path == path
  {
    RunPaths(listing.apis, resolve);
    S20.InsertAllLastWriteWins(map[], Contributions(listing.apis, resolve), path, verb);
    S20.InsertAllKeys(map[], Contributions(listing.apis, resolve), path);
  }

  /** Every insertion reaches the document: its (path, method) is set,
      and holds the insertion's operation, cleaned, unless a later insertion
      is bound for the same (path, method). */
  lemma ConvertKeepsInsertion(origin: Origin, listing: S12.Listing, resolve: Resolver, k: int)
    requires EndsWith(origin.url, ApiDocsSuffix)
    requires 0 <= k < |Contributions(listing.apis, resolve)|
    ensures var doc := Convert(origin, Some(listing), resolve).value;
      var c := Contributions(listing.apis, resolve)[k];
      c.path in doc.paths && c.verb in doc.paths[c.path]
    ensures var doc := Convert(origin, Some(listing), resolve).value;
      var cs := Contributions(listing.apis, resolve);
      (forall q :: k < q < |cs| ==> !S20.WritesTo(cs[q], cs[k].path, cs[k].verb)) ==>
        doc.paths[cs[k].path][cs[k].verb] == S20.CleanOperation(cs[k].op)
  {
    RunPaths(listing.apis, resolve);
    S20.InsertAllWritten(map[], Contributions(listing.apis, resolve), k);
  }

  /** Every operation of a fetched declaration reaches the document: its
      endpoint's path is a path of the document, with the operation's
      lower-cased method. When no later insertion is bound for the same
      (path, method), the entry is the operation, translated with the
      reference's tag name and cleaned; otherwise the later one wins. */
  lemma ConvertInsertsFetchedOperations(origin: Origin, listing: S12.Listing, resolve: Resolver,
                                        i: int, d: S12.Declaration, e: int, j: int)
    requires EndsWith(origin.url, ApiDocsSuffix)
    requires 0 <= i < |listing.apis| && resolve(listing.apis[i].path) == Some(d)
    requires 0 <= e < |d.apis| && 0 <= j < |d.apis[e].operations|
    ensures var doc := Convert(origin, Some(listing), resolve).value;
      var path := d.apis[e].path;
      path in doc.paths && ToLower(d.apis[e].operations[j].httpMethod) in doc.paths[path]
    ensures var doc := Convert(origin, Some(listing), resolve).value;
      var cs := Contributions(listing.apis, resolve);
      var path := d.apis[e].path;
      var verb := ToLower(d.apis[e].operations[j].httpMethod);
      (forall q :: ContributionIndex(listing.apis, resolve, i, OperationIndex(d.apis, e, j)) < q < |cs| ==> !S20.WritesTo(cs[q], path, verb)) ==>
        doc.paths[path][verb] == S20.CleanOperation(TranslateOperation(d.apis[e].operations[j], TagName(listing.apis[i].path)))
  {
    FetchedOperationContributed(listing.apis, resolve, i, d, e, j);
    ConvertKeepsInsertion(origin, listing, resolve, ContributionIndex(listing.apis, resolve, i, OperationIndex(d.apis, e, j)));
  }

  /** No path of the document has an empty method table: a path appears only
      together with an operation. */
  lemma ConvertPathsNonEmpty(origin: Origin, listing: S12.Listing, resolve: Resolver, path: string)
    requires EndsWith(origin.url, ApiDocsSuffix)
    ensures var doc := Convert(origin, Some(listing), resolve).value;
      path in doc.paths ==> |doc.paths[path]| > 0
  {
    var doc := Convert(origin, Some(listing), resolve).value;
    var cs := Contributions(listing.apis, resolve);
    ConvertPathsLastWriteWins(origin, listing, resolve, path, "");
    if path in doc.paths {
      var k :| 0 <= k < |cs| && cs[k].path == path;
      ConvertPathsLastWriteWins(origin, listing, resolve, path, cs[k].verb);
      assert S20.WritesTo(cs[k], path, cs[k].verb);
      assert cs[k].verb in doc.paths[path];
    }
  }

  /** Conversely, every operation of the document comes from a fetched
      declaration: some reference of the listing was fetched, and one of
      its endpoints has the operation's path and an operation with the
      lower-cased method, which the document holds translated with that
      reference's tag name and cleaned. */
  lemma ConvertOperationsFromDeclarations(origin: Origin, listing: S12.Listing, resolve: Resolver, path: string, verb: string)
    requires EndsWith(origin.url, ApiDocsSuffix)
    ensures var doc := Convert(origin, Some(listing), resolve).value;
      S20.Lookup(doc.paths, path, verb).Some? ==>
        exists i, d, e, j ::
          && 0 <= i < |listing.apis| && resolve(listing.apis[i].path) == Some(d)
          && 0 <= e < |d.apis| && 0 <= j < |d.apis[e].operations|
          && d.apis[e].path == path && ToLower(d.apis[e].operations[j].httpMethod) == verb
          && S20.Lookup(doc.paths, path, verb).value ==
             S20.CleanOperation(TranslateOperation(d.apis[e].operations[j], TagName(listing.apis[i].path)))
  {
    ConvertPathsLastWriteWins(origin, listing, resolve, path, verb);
    var cs := Contributions(listing.apis, resolve);
    var w := S20.LastWriter(cs, path, verb);
    if w.Some? {
      ContributionFrom(listing.apis, resolve, w.value);
    }
  }

  /** Every operation of the document is tagged with exactly one tag, the
      tag of one of the listing's references, and has neither an empty
      `parameters` nor an empty `responses` key. */
  lemma ConvertOperationsTaggedAndTidy(origin: Origin, listing: S12.Listing, resolve: Resolver, path: string, verb: string)
    requires EndsWith(origin.url, ApiDocsSuffix)
    ensures var doc := Convert(origin, Some(listing), resolve).value;
      S20.Lookup(doc.paths, path, verb).Some? ==>
        var op := S20.Lookup(doc.paths, path, verb).value;
        && |op.tags| == 1
        && op.tags[0] in NameSet(listing.apis)
        && S20.Tidy(op)
  {
    ConvertPathsLastWriteWins(origin, listing, resolve, path, verb);
    var cs := Contributions(listing.apis, resolve);
    var w := S20.LastWriter(cs, path, verb);
    if w.Some? {
      ContributionsTagged(listing.apis, resolve, w.value);
    }
  }
}
