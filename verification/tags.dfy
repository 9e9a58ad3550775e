/** Tag names derived from controller paths, and an independent reference
    definition of the converter's tag list: one tag per first occurrence of
    a name, in listing order (SwaggerConvert.py lines 58-67). */
module Tags {
  import opened Text
  import S12 = Swagger12
  import S20 = Swagger20

  const ControllerSuffix := "-controller"

  /** The last '/'-segment of a controller path with every occurrence of
      "-controller" deleted. */
  function TagName(refPath: string): (r: string)
    ensures |r| <= |refPath|
  {
    RemoveAll(LastSegment(refPath), ControllerSuffix)
  }

  lemma ControllerSuffixBorderFree()
    ensures BorderFree(ControllerSuffix)
  {
    var pat := ControllerSuffix;
    assert forall i :: 1 <= i < |pat| ==> pat[i] != '-';
    forall k | 0 < k < |pat|
      ensures pat[..k] != pat[|pat| - k..]
    {
      assert pat[..k][0] == '-';
      assert pat[|pat| - k..][0] == pat[|pat| - k];
    }
  }

  /** A segment holding no "-controller" is its own tag name. */
  lemma TagNameOfPlainSegment(prefix: string, x: string)
    requires '/' !in x && !Occurs(x, ControllerSuffix)
    ensures TagName(prefix + "/" + x) == x
  {
    LastSegmentAfterSlash(prefix, x);
    RemoveAllAbsent(x, ControllerSuffix);
  }

  /** "/.../pet-controller" is tagged "pet". */
  lemma TagNameOfController(prefix: string, x: string)
    requires '/' !in x && !Occurs(x, ControllerSuffix)
    ensures TagName(prefix + "/" + x + ControllerSuffix) == x
  {
    TagNameRemovesEveryOccurrence(prefix, x, "");
    assert prefix + "/" + x + ControllerSuffix + "" == prefix + "/" + x + ControllerSuffix;
    assert RemoveAll("", ControllerSuffix) == "";
    assert x + "" == x;
  }

  /** "-controller" is deleted wherever it occurs in the last segment, not
      only at its end. */
  lemma TagNameRemovesEveryOccurrence(prefix: string, x: string, y: string)
    requires '/' !in x && '/' !in y && !Occurs(x, ControllerSuffix)
    ensures TagName(prefix + "/" + x + ControllerSuffix + y) == x + RemoveAll(y, ControllerSuffix)
  {
    var seg := x + ControllerSuffix + y;
    ControllerSuffixHasNoSlash();
    LastSegmentOfSplice(prefix, x, ControllerSuffix, y);
    ControllerSuffixBorderFree();
    RemoveAllSplices(x, ControllerSuffix, y);
    assert TagName(prefix + "/" + x + ControllerSuffix + y) == RemoveAll(seg, ControllerSuffix);
  }

  lemma ControllerSuffixHasNoSlash()
    ensures '/' !in ControllerSuffix
  {
    assert forall i :: 0 <= i < |ControllerSuffix| ==> ControllerSuffix[i] != '/';
  }

  /** The tag name never contains '/'. */
  lemma TagNameHasNoSlash(refPath: string)
    ensures '/' !in TagName(refPath)
  {
    RemoveAllKeepsChars(LastSegment(refPath), ControllerSuffix, '/');
  }

  // ---------------------------------------------------------------------
  // Reference definition of the tag list
  // ---------------------------------------------------------------------

  /** The tag a controller reference asks for: its tag name with the
      reference's own description. */
  function TagOf(ref: S12.ApiRef): (r: S20.Tag)
    ensures '/' !in r.name && |r.name| <= |ref.path|
    ensures r.description == ref.description
  {
    TagNameHasNoSlash(ref.path);
    S20.Tag(TagName(ref.path), ref.description)
  }

  /** The tags the references ask for, one per reference, in listing
      order. */
  function Candidates(apis: seq<S12.ApiRef>): (r: seq<S20.Tag>)
    ensures |r| == |apis|
    decreases |apis|
  {
    if |apis| == 0 then []
    else Candidates(apis[..|apis| - 1]) + [TagOf(apis[|apis| - 1])]
  }

  /** The candidate at position `i` is the tag of `apis[i]`. */
  lemma {:induction false} CandidatesAt(apis: seq<S12.ApiRef>, i: int)
    requires 0 <= i < |apis|
    ensures Candidates(apis)[i] == TagOf(apis[i])
    decreases |apis|
  {
    var n := |apis| - 1;
    if i < n {
      CandidatesAt(apis[..n], i);
      assert Candidates(apis)[i] == Candidates(apis[..n])[i];
    }
  }

  /** The names a tag list carries. */
  function TagNames(tags: seq<S20.Tag>): set<string>
    decreases |tags|
  {
    if |tags| == 0 then {}
    else TagNames(tags[..|tags| - 1]) + {tags[|tags| - 1].name}
  }

  /** A name is carried exactly when some entry holds it. */
  lemma {:induction false} TagNamesMember(tags: seq<S20.Tag>, name: string)
    ensures name in TagNames(tags) <==> exists k :: 0 <= k < |tags| && tags[k].name == name
    decreases |tags|
  {
    if |tags| > 0 {
      var n := |tags| - 1;
      var init := tags[..n];
      TagNamesMember(init, name);
      assert forall k :: 0 <= k < n ==> init[k] == tags[k];
    }
  }

  lemma TagNamesSnoc(tags: seq<S20.Tag>, t: S20.Tag)
    ensures TagNames(tags + [t]) == TagNames(tags) + {t.name}
  {
    assert (tags + [t])[..|tags|] == tags;
  }

  /** The distinct tag names the listing produces. */
  function NameSet(apis: seq<S12.ApiRef>): set<string> {
    TagNames(Candidates(apis))
  }

  /** A name is produced exactly when some reference's path yields it. */
  lemma NameSetMember(apis: seq<S12.ApiRef>, name: string)
    ensures name in NameSet(apis) <==> exists j :: 0 <= j < |apis| && TagName(apis[j].path) == name
  {
    TagNamesMember(Candidates(apis), name);
    forall j | 0 <= j < |apis| ensures Candidates(apis)[j] == TagOf(apis[j]) {
      CandidatesAt(apis, j);
    }
  }

  lemma NameSetSnoc(apis: seq<S12.ApiRef>)
    requires |apis| > 0
    ensures NameSet(apis) == NameSet(apis[..|apis| - 1]) + {TagName(apis[|apis| - 1].path)}
  {
    TagNamesSnoc(Candidates(apis[..|apis| - 1]), TagOf(apis[|apis| - 1]));
  }

  predicate DistinctNames(tags: seq<S20.Tag>) {
    forall k, l :: 0 <= k < l < |tags| ==> tags[k].name != tags[l].name
  }

  /** `tags[i]` is the first entry carrying its name. */
  predicate IsFirst(tags: seq<S20.Tag>, i: int)
    requires 0 <= i < |tags|
  {
    forall j :: 0 <= j < i ==> tags[j].name != tags[i].name
  }

  lemma IsFirstOfPrefix(tags: seq<S20.Tag>, n: int, i: int)
    requires 0 <= i < n <= |tags|
    ensures IsFirst(tags[..n], i) <==> IsFirst(tags, i)
  {
    assert forall j :: 0 <= j < n ==> tags[..n][j] == tags[j];
  }

  /** An entry is the first of its name exactly when no earlier entry
      carries that name. */
  lemma IsFirstIffUnseen(tags: seq<S20.Tag>, i: int)
    requires 0 <= i < |tags|
    ensures IsFirst(tags, i) <==> tags[i].name !in TagNames(tags[..i])
  {
    var init := tags[..i];
    TagNamesMember(init, tags[i].name);
    assert forall j :: 0 <= j < i ==> init[j] == tags[j];
  }

  /** The first entry of each name, in order: one entry per distinct
      name. */
  function FirstTags(tags: seq<S20.Tag>): (r: seq<S20.Tag>)
    ensures DistinctNames(r)
    ensures TagNames(r) == TagNames(tags)
    decreases |tags|
  {
    if |tags| == 0 then []
    else
      var n := |tags| - 1;
      var prev := FirstTags(tags[..n]);
      IsFirstIffUnseen(tags, n);
      if IsFirst(tags, n) then
        TagNamesSnoc(prev, tags[n]);
        TagNamesMember(prev, tags[n].name);
        prev + [tags[n]]
      else
        prev
  }

  lemma FirstTagsSnoc(tags: seq<S20.Tag>)
    requires |tags| > 0
    ensures var n := |tags| - 1;
      FirstTags(tags) == if IsFirst(tags, n) then FirstTags(tags[..n]) + [tags[n]] else FirstTags(tags[..n])
  {
  }

  /** Extending the list by one entry extends the deduplicated list exactly
      when the new entry's name is unseen. */
  lemma FirstTagsExtend(tags: seq<S20.Tag>, prevTags: seq<S20.Tag>, prevSeen: set<string>)
    requires |tags| > 0
    requires prevTags == FirstTags(tags[..|tags| - 1])
    requires prevSeen == TagNames(tags[..|tags| - 1])
    ensures FirstTags(tags) ==
      if tags[|tags| - 1].name in prevSeen then prevTags else prevTags + [tags[|tags| - 1]]
  {
    IsFirstIffUnseen(tags, |tags| - 1);
    FirstTagsSnoc(tags);
  }

  /** Every first entry is kept, name and description alike. */
  lemma {:induction false} FirstTagsHasFirst(tags: seq<S20.Tag>, i: int)
    requires 0 <= i < |tags| && IsFirst(tags, i)
    ensures tags[i] in FirstTags(tags)
    decreases |tags|
  {
    var n := |tags| - 1;
    var prev := FirstTags(tags[..n]);
    var r := FirstTags(tags);
    assert prev <= r;
    if i < n {
      IsFirstOfPrefix(tags, n, i);
      FirstTagsHasFirst(tags[..n], i);
      assert tags[..n][i] == tags[i];
      var k :| 0 <= k < |prev| && prev[k] == tags[i];
      assert r[k] == prev[k];
    } else {
      assert r[|r| - 1] == tags[i];
    }
  }

  /** Every kept entry is a first entry: it carries the description of the
      first entry with its name. */
  lemma {:induction false} FirstTagsFromFirst(tags: seq<S20.Tag>, k: int)
    requires 0 <= k < |FirstTags(tags)|
    ensures exists i :: 0 <= i < |tags| && IsFirst(tags, i) && FirstTags(tags)[k] == tags[i]
    decreases |tags|
  {
    var n := |tags| - 1;
    var prev := FirstTags(tags[..n]);
    if k < |prev| {
      FirstTagsFromFirst(tags[..n], k);
      var i :| 0 <= i < n && IsFirst(tags[..n], i) && prev[k] == tags[..n][i];
      IsFirstOfPrefix(tags, n, i);
    } else {
      assert FirstTags(tags)[k] == tags[n];
    }
  }

  /** A list of tags with pairwise distinct names has as many entries as
      names. */
  lemma {:induction false} DistinctNamesCount(tags: seq<S20.Tag>)
    requires DistinctNames(tags)
    ensures |TagNames(tags)| == |tags|
    decreases |tags|
  {
    if |tags| > 0 {
      var init := tags[..|tags| - 1];
      var last := tags[|tags| - 1];
      assert DistinctNames(init);
      DistinctNamesCount(init);
      TagNamesMember(init, last.name);
      assert last.name !in TagNames(init);
    }
  }

  /** A list with N distinct names deduplicates to exactly N entries. */
  lemma FirstTagsCount(tags: seq<S20.Tag>)
    ensures |FirstTags(tags)| == |TagNames(tags)|
  {
    DistinctNamesCount(FirstTags(tags));
  }
}
