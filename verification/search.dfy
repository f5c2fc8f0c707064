/** The `Search` class: the searchable post types (computed once and cached),
    the main-query adjustment on `pre_get_posts`, and the `exclude_from_search`
    field group whose location matches every searchable post type. The
    object's one piece of state, the cached type list, is threaded through
    as a value; the host's own `get_post_types()` answer is a parameter. */
module SearchConfig {
  import opened Seqs

  /** The `Search` singleton: its `post_types` property (empty until computed). */
  datatype Search = Search(postTypes: seq<string>)

  /** The types always searched, in the order they are merged in. */
  const DefaultPostTypes: seq<string> := ["post", "page"]

  /** The list `get_post_types` returns, and the object after the call. */
  datatype Cached = Cached(state: Search, types: seq<string>)

  /** `get_post_types`: the cached list when there is one; otherwise the host's
      publicly queryable, searchable types followed by `post` and `page`, first
      occurrences only, renumbered from 0, and stored as the cache. */
  function GetPostTypes(s: Search, hostTypes: seq<string>): (c: Cached)
    ensures c.state.postTypes == c.types
    ensures |c.types| > 0
    ensures |s.postTypes| > 0 ==> c.state == s
    ensures |s.postTypes| == 0 ==>
              && NoDup(c.types)
              && "post" in c.types && "page" in c.types
              && (forall t :: t in c.types <==> t in hostTypes || t in DefaultPostTypes)
              && IsSubsequence(c.types, hostTypes + DefaultPostTypes)
              && (forall i, j :: 0 <= i < j < |c.types| ==>
                    FirstIndex(hostTypes + DefaultPostTypes, c.types[i]) <
                    FirstIndex(hostTypes + DefaultPostTypes, c.types[j]))
  {
    if |s.postTypes| > 0 then Cached(s, s.postTypes)
    else
      var merged := hostTypes + DefaultPostTypes;
      var types := Dedup(merged, {});
      DedupFirstOccurrenceOrder(merged, {});
      assert "post" in merged && "page" in merged;
      Cached(Search(types), types)
  }

  /** Once computed, the list is returned unchanged by every later call,
      whatever the host would now answer. */
  lemma GetPostTypesIdempotent(s: Search, hostTypes: seq<string>, laterHostTypes: seq<string>)
    ensures GetPostTypes(GetPostTypes(s, hostTypes).state, laterHostTypes) == GetPostTypes(s, hostTypes)
  {
  }

  /** `plugins_loaded`: primes the cache with the default list of searchable types. */
  function PluginsLoaded(s: Search, hostTypes: seq<string>): (s': Search)
    ensures |s'.postTypes| > 0
    ensures |s.postTypes| > 0 ==> s' == s
    ensures |s.postTypes| == 0 ==>
              && NoDup(s'.postTypes)
              && (forall t :: t in s'.postTypes <==> t in hostTypes || t in DefaultPostTypes)
              && (forall i, j :: 0 <= i < j < |s'.postTypes| ==>
                    FirstIndex(hostTypes + DefaultPostTypes, s'.postTypes[i]) <
                    FirstIndex(hostTypes + DefaultPostTypes, s'.postTypes[j]))
    ensures forall later :: GetPostTypes(s', later).types == s'.postTypes
  {
    GetPostTypes(s, hostTypes).state
  }

  /** A query variable's value. */
  datatype QueryVar = QText(s: string) | QFlag(b: bool) | QList(items: seq<string>)

  /** The query variables `pre_get_posts` sets. */
  const AdjustedVars: set<string> := {"post_type", "meta_key", "meta_value", "meta_compare"}

  /** The main query after adjustment, and the object after the call. */
  datatype Adjusted = Adjusted(state: Search, query: map<string, QueryVar>)

  /** `pre_get_posts`: outside the main query, or in the admin, nothing changes;
      otherwise `post_type` is set to the searchable post types, and the meta
      query variables to `exclude_from_search`, `true` and `!=`. */
  function PreGetPosts(s: Search, query: map<string, QueryVar>, isMainQuery: bool, isAdmin: bool,
                       hostTypes: seq<string>): (a: Adjusted)
    ensures !isMainQuery || isAdmin ==> a == Adjusted(s, query)
    ensures isMainQuery && !isAdmin ==>
              && a.state == GetPostTypes(s, hostTypes).state
              && a.query.Keys == query.Keys + AdjustedVars
              && a.query["post_type"] == QList(a.state.postTypes)
              && a.query["meta_key"] == QText("exclude_from_search")
              && a.query["meta_value"] == QFlag(true)
              && a.query["meta_compare"] == QText("!=")
              && forall k :: k in query && k !in AdjustedVars ==> a.query[k] == query[k]
  {
    if !isMainQuery || isAdmin then Adjusted(s, query)
    else
      var c := GetPostTypes(s, hostTypes);
      var q := query["post_type" := QList(c.types)];
      var q := q["meta_key" := QText("exclude_from_search")];
      var q := q["meta_value" := QFlag(true)];
      var q := q["meta_compare" := QText("!=")];
      Adjusted(c.state, q)
  }

  /** Running the hook a second time, on the query it produced, changes nothing more. */
  lemma PreGetPostsIdempotent(s: Search, query: map<string, QueryVar>, isMainQuery: bool, isAdmin: bool,
                              hostTypes: seq<string>, laterHostTypes: seq<string>)
    ensures var once := PreGetPosts(s, query, isMainQuery, isAdmin, hostTypes);
            PreGetPosts(once.state, once.query, isMainQuery, isAdmin, laterHostTypes) == once
  {
    var once := PreGetPosts(s, query, isMainQuery, isAdmin, hostTypes);
    if isMainQuery && !isAdmin {
      var twice := PreGetPosts(once.state, once.query, isMainQuery, isAdmin, laterHostTypes);
      assert twice.state == once.state;
      assert twice.query == once.query;
    }
  }

  /** An ACF location rule `param operator value`. */
  datatype Rule = Rule(param: string, operator: string, value: string)

  /** A call on the fields builder's location: `setLocation` opens the
      location with its first rule, `or` adds an alternative rule. */
  datatype LocationCall = SetLocation(rule: Rule) | Or(rule: Rule)

  /** A field group as the builder leaves it. */
  datatype FieldGroup = FieldGroup(name: string, trueFalseFields: seq<string>, location: seq<LocationCall>)

  function PostTypeRule(postType: string): Rule
  {
    Rule("post_type", "==", postType)
  }

  /** The location admits a post type when one of its alternatives matches it. */
  predicate Admits(location: seq<LocationCall>, postType: string)
  {
    exists i :: 0 <= i < |location| && location[i].rule.param == "post_type" &&
                location[i].rule.operator == "==" && location[i].rule.value == postType
  }

  /** The location-building loop: one `post_type == t` rule per type, in list
      order, the first through `setLocation` and the others through `or`. */
  method BuildLocation(types: seq<string>) returns (location: seq<LocationCall>)
    ensures |location| == |types|
    ensures forall i :: 0 <= i < |types| ==> location[i].rule == PostTypeRule(types[i])
    ensures forall i :: 0 <= i < |types| ==> (location[i].SetLocation? <==> i == 0)
    ensures forall t :: Admits(location, t) <==> t in types
  {
    location := [];
    var counter := 1;
    for i := 0 to |types|
      invariant counter == i + 1
      invariant |location| == i
      invariant forall j :: 0 <= j < i ==> location[j].rule == PostTypeRule(types[j])
      invariant forall j :: 0 <= j < i ==> (location[j].SetLocation? <==> j == 0)
    {
      if counter == 1 {
        location := location + [SetLocation(PostTypeRule(types[i]))];
      } else {
        location := location + [Or(PostTypeRule(types[i]))];
      }
      counter := counter + 1;
    }
    forall t
      ensures Admits(location, t) <==> t in types
    {
      if t in types {
        var i :| 0 <= i < |types| && types[i] == t;
        assert location[i].rule == PostTypeRule(t);
      }
    }
  }

  /** `core_acf_fields`: adds the `search` group, holding the true/false field
      `exclude_from_search`, shown on every searchable post type. */
  method CoreAcfFields(s: Search, fields: seq<FieldGroup>, hostTypes: seq<string>)
    returns (s': Search, fields': seq<FieldGroup>)
    ensures s' == GetPostTypes(s, hostTypes).state
    ensures |fields'| == |fields| + 1 && fields'[..|fields|] == fields
    ensures fields'[|fields|].name == "search"
    ensures fields'[|fields|].trueFalseFields == ["exclude_from_search"]
    ensures |fields'[|fields|].location| == |s'.postTypes|
    ensures fields'[|fields|].location[0] == SetLocation(PostTypeRule(s'.postTypes[0]))
    ensures forall i :: 0 < i < |s'.postTypes| ==>
              fields'[|fields|].location[i] == Or(PostTypeRule(s'.postTypes[i]))
    ensures forall t :: Admits(fields'[|fields|].location, t) <==> t in s'.postTypes
  {
    var c := GetPostTypes(s, hostTypes);
    var location := BuildLocation(c.types);
    s' := c.state;
    fields' := fields + [FieldGroup("search", ["exclude_from_search"], location)];
  }
}
