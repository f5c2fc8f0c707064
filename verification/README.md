# Search customisation for a Genesis/ACF WordPress site, in Dafny

This project models the logic of a small WordPress search module. The module
has two parts.

- **`ofilter`** (`WPS\Templates`) is an object-array filter. It keeps the
  objects that pass every clause of a filter spec. The search template uses it
  to split the main query's posts into one group per post type, in the order
  documentation, page, post, forum.
- **`Search`** (`WPS\Core`) is a singleton. It computes and caches the
  searchable post types. On `pre_get_posts` it narrows the main front-end query
  to those types. It also sets the query's meta variables to the key
  `exclude_from_search`, the value `true` and the comparison `!=`. It registers
  `exclude_from_search` as an ACF true/false field whose location matches every
  searchable type.

Modules:

- `PhpValues` (`php_values.dfy`): property values (`null`, strings, nested
  objects), array keys, PHP's `empty()`, and ASCII `strtolower`.
- `Seqs` (`seqs.dfy`): subsequences, duplicate-freedom, first occurrences, and
  `Dedup` (the effect of `array_values(array_unique(..))`).
- `ObjectFilter` (`ofilter.dfy`): `ofilter`, its `$isValid` closure, and the
  `array_filter` over the input.
- `SearchLoop` (`search_loop.dfy`): the grouping step of `do_search_loop`.
- `SearchConfig` (`search.dfy`): the `Search` class. Its cache is threaded
  through as a `Search` value, and each call returns the new object together
  with its result.

A filter spec entry is classified the way the code classifies it. An array
value is a nested clause, whatever its key. Otherwise an integer key means a
bare property name, and a string key means a literal or a callback. A nested
clause `[outer, rest...]` is `Nested(outer, rest)`, where `rest` holds the
pairs `array_shift` leaves behind. Only the first of those pairs is tested.

Parameters and host calls:

- The host's `get_post_types([...])` answer is the parameter `hostTypes`.
- `is_main_query()` and `is_admin()` are the booleans `isMainQuery` and
  `isAdmin`.
- The `WP_Query` variables are a `map<string, QueryVar>`.
- The ACF fields builder is modelled by the calls made on it. A
  `FieldGroup` records its name, its true/false fields, and the sequence of
  `setLocation` / `or` calls.

## Model

| member | source | states |
|---|---|---|
| `ObjectFilter.OFilter` | src/templates/search.php:27-75 | An empty input gives `null` (None) and a non-empty one an array. That array is a subsequence of the input, keeping order and keys. It holds every element that passes the spec, as often as the input does, and nothing else. |
| `ObjectFilter.IsValid` | src/templates/search.php:34-52 | The `$isValid` closure. `BareNameClause`, `ValueClause` and `CallbackClause` characterise its three branches through `ofilter`: bare name, literal, callback. |
| `ObjectFilter.ClausePasses` | src/templates/search.php:56-70 | One iteration of the `foreach` over the spec. An array entry descends into the sub-object; any other entry goes to `$isValid`. `NestedClause` and `NestedWithoutPair` characterise the nested branch. |
| `ObjectFilter.Keep` | src/templates/search.php:54-74 | The `array_filter` callback. `KeepIsConjunction`, `KeepAppend` and `KeepOne` characterise it as the conjunction of its clauses. |
| `ObjectFilter.Select` | src/templates/search.php:54-74 | `array_filter` with the spec callback returns a subsequence of the input. An element's multiplicity is the input's when it passes and 0 otherwise. An element is in the result iff it is in the input and passes. |
| `ObjectFilter.KeepIsConjunction` | src/templates/search.php:55-73 | An object is kept iff every clause of the spec passes. |
| `ObjectFilter.KeepAppend` | src/templates/search.php:55-73 | Passing the concatenation of two specs means passing each of them. |
| `ObjectFilter.KeepOne` | src/templates/search.php:55-73 | A one-clause spec keeps exactly the objects that clause passes. |
| `ObjectFilter.SelectAppend` | src/templates/search.php:54-74 | Filtering by `cs + ds` is the same as filtering by `cs` and then by `ds`. |
| `ObjectFilter.SelectNoClauses` | src/templates/search.php:54-74 | Filtering with no clauses returns the input unchanged. |
| `ObjectFilter.SelectSameVerdicts` | src/templates/search.php:54-74 | Two specs that accept the same objects select the same elements. |
| `ObjectFilter.EmptySpecKeepsAll` | src/templates/search.php:54-74 | On a non-empty array, an empty spec keeps every element. |
| `ObjectFilter.MoreClausesShrink` | src/templates/search.php:55-73 | Adding clauses only shrinks the result. The longer spec's result is a subsequence of the shorter one's, and equals the shorter one's result filtered again by the added clauses. |
| `ObjectFilter.StringSpecIsSingletonArray` | src/templates/search.php:31-33 | A string spec behaves exactly like the one-element array holding it. It keeps the objects whose named property exists and is non-empty. |
| `ObjectFilter.BareNameClause` | src/templates/search.php:35-38 | An integer-keyed name keeps exactly the objects whose property exists and is non-empty, whatever the integer is. |
| `ObjectFilter.ValueClause` | src/templates/search.php:40-48 | `name => value` keeps exactly the objects whose property exists and equals the value ignoring case. Lower-casing the literal changes nothing. |
| `ObjectFilter.CallbackClause` | src/templates/search.php:40-45 | `name => callback` keeps exactly the objects whose property exists and that the callback accepts. |
| `ObjectFilter.NestedClause` | src/templates/search.php:56-65 | A nested clause fails when the outer property is missing. Otherwise it passes iff the sub-object passes the first remaining pair. Any further pairs are ignored. |
| `ObjectFilter.NestedWithoutPair` | src/templates/search.php:56-65 | A nested array with nothing after the outer name keeps no element. |
| `PhpValues.Lower` | src/templates/search.php:46 | `strtolower` keeps the length, turns every A-Z into a-z, leaves other characters alone, and leaves no upper-case letter. |
| `PhpValues.LowerIdempotent` | src/templates/search.php:46 | Lowering twice is the same as lowering once. |
| `SearchLoop.TypeSpecKeeps` | src/templates/search.php:100 | The spec `array('post_type' => $type)` keeps exactly the objects whose `post_type` equals the type, ignoring case. |
| `SearchLoop.GroupsFor` | src/templates/search.php:99-103 | The `foreach` over the type list, keeping each non-empty `ofilter` result as a group. `GroupsForOrder`, `GroupsForDistinct`, `GroupsForExact` and `GroupsForComplete` characterise it. |
| `SearchLoop.GroupsForOrder` | src/templates/search.php:99-103 | The groups' types form a subsequence of the type list: list order, each list position used at most once. |
| `SearchLoop.GroupsForDistinct` | src/templates/search.php:99-103 | A type list without repeats gives each type at most one group. |
| `SearchLoop.GroupsForExact` | src/templates/search.php:99-103 | Every group has a listed type and is non-empty. It is a subsequence of the posts and holds exactly the posts of its type, each as often as the posts do. |
| `SearchLoop.SelectedGroupIsExact` | src/templates/search.php:100-103 | A non-empty `ofilter` result for one type is an exact group of that type: a subsequence of the posts holding each post of that type as often as the posts do, and nothing else. |
| `SearchLoop.GroupsForComplete` | src/templates/search.php:99-103 | Every listed type that some post has gets a group. |
| `SearchLoop.SearchGroups` | src/templates/search.php:93-103 | The groups printed for the main query's posts: none without posts, otherwise one per type of the fixed list that has posts. `SearchGroupsSpec` characterises it. |
| `SearchLoop.SearchGroupsSpec` | src/templates/search.php:93-103 | No posts give no groups. Groups follow the order documentation, page, post, forum, each type at most once, and empty groups are omitted. Each group holds exactly its type's posts, each as often as the posts do, and posts of other types appear in no group. |
| `Seqs.FirstIndex` | src/Search.php:84-87 | Finds the position of the first occurrence of an element. |
| `Seqs.Dedup` | src/Search.php:84-87 | `array_values(array_unique(..))` has no duplicates and contains exactly the input's values. It is a subsequence of the input, indexed from 0. |
| `Seqs.DedupFirstOccurrenceOrder` | src/Search.php:84-87 | The deduplicated values appear in the order of their first occurrence in the input. |
| `SearchConfig.GetPostTypes` | src/Search.php:79-90 | The result is non-empty and is stored as the cache. A non-empty cache is returned unchanged. Otherwise the result is the host types followed by `post`, `page`, first occurrences only, in first-occurrence order. It has no duplicates and contains `post` and `page`. |
| `SearchConfig.GetPostTypesIdempotent` | src/Search.php:80-89 | After one call, later calls return the same list and state, whatever the host answers. |
| `SearchConfig.PluginsLoaded` | src/Search.php:92-104 | After `plugins_loaded` the cache is non-empty, and every later `get_post_types` returns it. A cache that was already set is untouched. An empty cache becomes the host types together with `post` and `page`: no duplicates, in first-occurrence order. |
| `SearchConfig.PreGetPosts` | src/Search.php:111-122 | Outside the main query, or in the admin, query and object are unchanged. Otherwise exactly `post_type`, `meta_key`, `meta_value` and `meta_compare` are set, to the type list, `exclude_from_search`, true and `!=`. All other variables are unchanged. |
| `SearchConfig.PreGetPostsIdempotent` | src/Search.php:111-122 | Running the hook again on its own output changes nothing. |
| `SearchConfig.BuildLocation` | src/Search.php:57-67 | One `post_type == t` rule per type, in list order. The first comes from `setLocation`, the rest from `or`. The location admits exactly the listed types. |
| `SearchConfig.CoreAcfFields` | src/Search.php:50-71 | Appends one group named `search` with the true/false field `exclude_from_search` and leaves earlier groups alone. The group's location has one rule per searchable type, as above. |

## Left out

- HTML output of `do_search_loop`: the search form, headings, excerpts, content, titles, permalinks, post-type labels and `genesis_loop_else`. All of it is rendering or host calls.
- Hook wiring: `add_filter`, `add_action`, `remove_action` and the `genesis()` call. Also left out: the `Singleton` base, the `ABSPATH` guard, `class_exists`, and the `Fields::get_instance()` initialisation in `plugins_loaded`.
- The ACF fields-builder internals, `$fields->add` (modelled as appending to a list), and the host's `get_post_types` query (a parameter).
- PHP loose comparison: `!=` on numeric strings (`"1" != "01"` is false in PHP) is modelled as exact string inequality after lower-casing. Numbers and booleans appear as their string form.
- Locale-dependent `strtolower` is not modelled: only A-Z are lowered, as in PHP 8.2 and later.
- `is_callable` on a string that names a PHP function (`'trim'`) is not modelled. A literal is always compared, never called. Callbacks are pure, total predicates.
- IsValid: in PHP, an integer key paired with a callback makes `property_exists` throw a TypeError. The model rejects the element instead.
- IsValid: comparing a literal against an object-valued property makes `strtolower` throw a TypeError. The model rejects the element instead.
- ClausePasses: a nested clause whose outer property is not an object fails in the model. In PHP, `property_exists` on a string looks up a class of that name, and on `null` it throws.
- ClausePasses: a nested clause with no pair after the outer name fails. PHP reads the missing key as `null` and tests the property `""`, which no PHP object can have.
- Array-valued properties are not representable: `Value` has no array case. So `empty([])` on a property, and an array as the value of a nested clause's first remaining pair, are not modelled.
- String keys that PHP turns into integers (`"5"`) and a non-string outer name in a nested clause are not representable.
- `ofilter` called on `null` or with a non-string, non-array spec is not modelled.
