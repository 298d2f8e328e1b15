# rugroupy co-occurrence engine in Dafny

rugroupy tags entities (users, say) with named attributes. It then works out
which entities are similar, by counting the (tag, value) pairs that two
entities share. The Ruby library keeps entities in a MongoDB collection
(`Groupy::Entity`) and computes similarity with two map/reduce jobs written
in JavaScript (`Groupy::EntityGrouper`):

1. **Inversion** (`invert_entities`) turns every entity's tags into an
   inverted collection. It has one record per (tag, value) key, and the
   record lists the entities carrying that value.
2. **Counting** (`count_entities`) visits every pair of positions in a
   record's sorted entity list. For each pair it emits the tag's score under
   a per-tag pair key and under a tag-free pair key, then sums the
   contributions per key into the count collection.
3. **Queries** (`similiar`) select count records by tag, or by the absence
   of a tag, and optionally by one member of the pair. They sort by count,
   apply `skip`/`limit`, and project the pair or its other member.

This project models that core and proves properties of it.

| file | module | models |
|---|---|---|
| `collections.dfy` | `Collections` | ordered documents (`seq<Entry<K, V>>` with `Lookup`/`Put`) and the framework's shuffle (`Group`) |
| `mapreduce.dfy` | `MapReduce` | the map/reduce framework: group-then-reduce (`Reduced`), and the incremental re-reducing evaluation the server performs (`Store`, `Folded`), proved equal |
| `strings.dfy` | `Strings` | the string order of `Array.prototype.sort()` on ids, as an order on characters (see Left out for UTF-16), and the decimal names of array positions |
| `documents.dfy` | `Documents` | entity documents, tag values, inverted keys |
| `inversion.dfy` | `Inversion` | `invert_entities`: map function, reduce function, job |
| `counting.dfy` | `Counting` | `count_entities`: map function, reduce function, job |
| `queries.dfy` | `Similarity` | `EntityGrouper#similiar` and `Entity#similiar` |
| `entity.dfy` | `Entities` | `Groupy::Entity`: the tag store as a class over the entity collection |
| `grouper.dfy` | `Grouping` | `Groupy::EntityGrouper`: options, defaults and the two output collections |

Modelling choices:

- **Map/reduce jobs.** The model evaluates a job by feeding each emission
  to a store. The store keeps the first value of a key as it is, and
  re-reduces `[stored, new]` for every later value. This is one evaluation
  the server may choose; see Left out. Each job is a Dafny method with
  loops. The methods call the map and reduce functions, which are
  themselves methods with loops (`CountMap`, `ReduceEntities`, …). Each job
  is proved equal to the specification function `Reduced`, which groups the
  emissions in order of first emission and reduces each group once.
  `MapReduce.FoldedIsReduced` proves the two evaluations agree for every
  reduce function that may be re-applied to its own output. Both reduce
  functions are proved to be such functions.
- **Ordered documents.** A MongoDB document's fields and a collection's
  records are kept as ordered entry sequences, so every loop and every
  specification function is deterministic. The orders they fix are the
  model's choice (see Left out). The entity collection itself is a
  `map<Id, Tags>` field of `Entities.EntityStore`; `Tags` is the ordered
  `tags` sub-document.
- **Caller-supplied JavaScript.** The include, score and dynamic-tag
  functions are Dafny function values (`Tag -> bool`, `Tag -> int`,
  `Doc -> seq<emission>`). Their defaults are those at
  lib/rugroupy/group.rb:8-10.
- **Numbers.** Counts and scores are unbounded integers.

Two details of the code that a reader might not expect:

- The counting map function does not remove duplicate ids before pairing;
  it only sorts a copy (`slice(0).sort()`). An id listed twice pairs with
  itself, and a pair listed twice is counted twice. `DefaultScoreCountsSharedKeys`
  therefore assumes duplicate-free entity lists.
- The pair loop compares positions as strings (see Findings).
  `RecordEmits` compares positions as numbers; `RecordEmitsAsWritten`
  models the comparison as written. `Entity#similiar` matches either
  member of a pair, so it does not depend on the orientation. Only the
  orientation of the `_id.e` keys does, and with it how a tag-free count
  is split between keys.

## Model

| member | source | states |
|---|---|---|
| `MapReduce.FoldedIsReduced` | lib/rugroupy/group.rb:96 | storing emissions one at a time with re-reduce yields, for each key, the reduction of all its values in emission order, when the reduce function tolerates re-reduction |
| `Collections.GroupLookup` | lib/rugroupy/group.rb:96 | the framework's shuffle gives one group per emitted key, with distinct keys, holding that key's values in emission order |
| `MapReduce.StoreStep` | lib/rugroupy/group.rb:62 | storing one more emission into the reduced output of a stream gives the reduced output of the longer stream |
| `MapReduce.ReducedLookup` | lib/rugroupy/group.rb:62 | the output has one record per emitted key, with distinct keys, holding the reduction of exactly that key's values; no record for keys never emitted |
| `Strings.SortIds` | lib/rugroupy/group.rb:40 | the sorted copy of an entity list is ordered and a permutation of the list, duplicates kept |
| `Strings.SortedUnique` | lib/rugroupy/group.rb:40 | two sorted lists with the same elements are equal, so the sorted copy does not depend on the input order |
| `Strings.Decimal` | lib/rugroupy/group.rb:41-42 | a position as `for..in` names it is a non-empty string of decimal digits that denotes the position, with no leading zero (so position 10 is `"10"`) |
| `Inversion.MapEntity` | lib/rugroupy/group.rb:68-81 | the map function's loops emit, for a document with `tags`, one `(tag, value) -> [id]` per value of each included tag in field order, then the dynamic-tag emissions; nothing for a document without `tags` |
| `Inversion.ReduceEntities` | lib/rugroupy/group.rb:85-93 | the reduce function's loops push every id of every value list, in order (`Concat`) |
| `Inversion.MergeEmission` | lib/rugroupy/group.rb:96 | one emission is stored by re-reducing with the stored value, or appended as a new record |
| `Inversion.MergeEmissions` | lib/rugroupy/group.rb:96 | storing one map call's emissions extends the incremental output by those emissions |
| `Inversion.InvertEntities` | lib/rugroupy/group.rb:66-98 | the job's result equals the group-then-concatenate specification `Inverted` over the whole scan |
| `Inversion.ConcatKeepsEverything` | lib/rugroupy/group.rb:85-93 | the reduce result is as long as all the lists together and holds each id exactly as often as they do: nothing is deduplicated |
| `Inversion.ConcatMember` | lib/rugroupy/group.rb:85-93 | an id is in the reduce result exactly when it is in one of the lists |
| `Inversion.ConcatReReducible` | lib/rugroupy/group.rb:84-93 | the concatenating reduce function may be re-applied to its own output |
| `Inversion.ValueEmitsMember` | lib/rugroupy/group.rb:75-77 | the per-value loop emits exactly the keys `(tag, z)` for the tag's values `z`, each carrying `[id]` |
| `Inversion.StaticEmitsMember` | lib/rugroupy/group.rb:73-78 | the static pass emits `(t, z) -> [id]` exactly when `t` is included and the document holds `z` under `t` |
| `Inversion.MapPhaseMember` | lib/rugroupy/group.rb:68-81 | an emission occurs in the map phase exactly when some document's map call makes it |
| `Inversion.EmittedIsListed` | lib/rugroupy/group.rb:84-96 | an id is listed under a key of the output exactly when some emission under that key carries it |
| `Inversion.CarriedValueIsListed` | lib/rugroupy/group.rb:72-78 | every value `z` of an included tag `t` of a document puts that document's id into the record for `(t, z)`, whatever the dynamic-tag function does |
| `Inversion.InvertedMembership` | lib/rugroupy/group.rb:72-78 | without dynamic tags, an id is listed under `(t, z)` exactly when a document with that id holds `z` under the included tag `t` |
| `Inversion.ExcludedTagIsNotInverted` | lib/rugroupy/group.rb:74 | without dynamic tags, an excluded tag has no record at all |
| `Inversion.UntaggedDocumentEmitsNothing` | lib/rugroupy/group.rb:72-80 | a document without a `tags` field adds no emission, not even dynamic ones, wherever it occurs in the scan |
| `Inversion.UntaggedDocumentIgnored` | lib/rugroupy/group.rb:72-80 | removing a document without `tags` from the collection leaves the inverted collection unchanged |
| `Counting.CountMap` | lib/rugroupy/group.rb:36-49 | the map function's nested loops over the sorted copy emit, for every position pair `x < y`, the tag score under `{tag, e: [s[x], s[y]]}` and then under `{e: [s[x], s[y]]}` (`RecordEmits`) |
| `Counting.PairLoop` | lib/rugroupy/group.rb:42-47 | the inner loop for position `x` emits both keys for every later position `y`, in order (`Row`) |
| `Counting.ReduceCounts` | lib/rugroupy/group.rb:53-59 | the reduce function's loop adds up the counts from zero (`Sum`) |
| `Counting.MergeCount` | lib/rugroupy/group.rb:62 | one emission is stored by summing with the stored count, or appended as a new record |
| `Counting.MergeCounts` | lib/rugroupy/group.rb:62 | storing one map call's emissions extends the incremental output by those emissions |
| `Counting.CountEntities` | lib/rugroupy/group.rb:34-64 | the job's result equals the group-then-sum specification `Counts` over the inverted collection |
| `Counting.SumReReducible` | lib/rugroupy/group.rb:53-59 | the summing reduce function may be re-applied to its own output |
| `Counting.SumPermutation` | lib/rugroupy/group.rb:53-59 | the sum does not depend on the order of the counts |
| `Counting.RecordEmitsShape` | lib/rugroupy/group.rb:41-47 | a list of `n` ids yields `n(n-1)` emissions, that is `n(n-1)/2` tagged ones each followed by its tag-free twin with the same pair and the score; fewer than 2 ids yield nothing |
| `Counting.RecordEmitsIgnoreOrder` | lib/rugroupy/group.rb:40 | a record's emissions depend only on the multiset of its ids, not on their order in the inverted list |
| `Counting.RowsLength` | lib/rugroupy/group.rb:41-47 | the pair loops up to position `upto` of an `n`-id list emit `upto(2n-upto-1)` entries (`PairSlotsClosedForm`) |
| `Counting.PairSlotsClosedForm` | lib/rugroupy/group.rb:41-47 | the number of emissions the outer loop has made after `upto` rounds, in closed form |
| `Counting.SharedWeight` | lib/rugroupy/group.rb:40-58 | with score 1 and duplicate-free lists, the reference total of a pair `a < b` is the number of covered records listing both ids |
| `Counting.CanonicalPairs` | lib/rugroupy/group.rb:41-45 | every emitted pair has its first id sorting no later than its second |
| `Counting.RowsMember` | lib/rugroupy/group.rb:41-45 | every emission of the pair loops carries the pair at two positions `x`, `y` the order admits, under the record's tag or no tag |
| `Counting.RowsContains` | lib/rugroupy/group.rb:41-45 | every position pair the order admits is emitted under the record's tag and under no tag |
| `Counting.RecordTotal` | lib/rugroupy/group.rb:41-45 | the counts a record emits under a key add up to the tag score times the key's pair occurrences in the sorted list, for the record's tag or the tag-free key, and to 0 for other tags |
| `Counting.CountPhaseTotal` | lib/rugroupy/group.rb:36-49 | the counts emitted under a key over the whole inverted collection add up to the reference total `Weighted` |
| `Counting.CountsLookup` | lib/rugroupy/group.rb:34-64 | the count collection has distinct keys, and holds `Weighted` for every emitted key and nothing for others |
| `Counting.ScoreLinearity` | lib/rugroupy/group.rb:37-45 | the totals for a score function that is the sum of two others are the sums of their totals |
| `Counting.WeightedLinearity` | lib/rugroupy/group.rb:37-45 | the reference total is additive in the score function |
| `Counting.TaggedWeightScales` | lib/rugroupy/group.rb:37-45 | the reference total of a tag's pair key under a score is that tag's score times its total under the default score of 1 |
| `Counting.CountPhaseSameKeys` | lib/rugroupy/group.rb:39-45 | the keys the map phase emits, and their order, do not depend on the score function |
| `Counting.TaggedCountsScale` | lib/rugroupy/group.rb:37-62 | a tag's pair record exists under a score exactly when it exists under the default score, and its count is the tag's score times the default count |
| `Counting.PairOccurrencesDistinct` | lib/rugroupy/group.rb:41-43 | in a sorted list without duplicates, the pair `(a, b)` occurs once if both are listed and `a` sorts before `b`, otherwise never |
| `Counting.DefaultScoreCountsSharedKeys` | lib/rugroupy/group.rb:53-58 | with score 1 and duplicate-free lists, the total of a pair key is the number of inverted records of a covered tag that list both ids |
| `Counting.UntaggedIsSumOfTagged` | lib/rugroupy/group.rb:44-45 | a pair's tag-free total equals the sum of that pair's per-tag records in the count collection |
| `Counting.CountPhaseTwinnedTotal` | lib/rugroupy/group.rb:44-45 | over the map phase, a pair's tag-free total equals the sum of its per-tag emitted counts |
| `Counting.NeverReversed` | lib/rugroupy/group.rb:41-43 | comparing positions as numbers never emits the tag-free key of a pair in reverse sorted order |
| `Counting.CountPhaseCanonical` | lib/rugroupy/group.rb:40-45 | every key the map phase emits lists its pair in sorted order |
| `Counting.CountsCanonical` | lib/rugroupy/group.rb:40-62 | every record of the count collection lists its pair in sorted order |
| `Counting.OneRecordPerPair` | lib/rugroupy/group.rb:40-62 | for distinct ids the count collection never holds both `[a, b]` and `[b, a]` under the same tag (or no tag), so the count seen from either entity is the same record |
| `Counting.AsWrittenReversesPair` | lib/rugroupy/group.rb:41-43 | with the string comparison as written, a record of 11 or more distinct ids emits the pair at positions 10 and 2 as `{e: [s[10], s[2]]}`, a key the numeric comparison never emits |
| `Similarity.Select` | lib/rugroupy/group.rb:19-21 | the query returns exactly the count records whose key has the requested tag (or no tag), and for `Entity#similiar` whose pair contains the id, each as often as it occurs in the collection |
| `Similarity.SortByCount` | lib/rugroupy/group.rb:24 | the sort ranks records by count, descending or ascending when `reverse`, and is a permutation of its input |
| `Similarity.Page` | lib/rugroupy/group.rb:22-23 | `skip` then `limit` give a contiguous run of the sorted records starting after the skipped ones, no longer than the limit's absolute value (a negative limit acts as its absolute value, zero as no limit), and shorter than the rest only because of the limit |
| `Similarity.SimilarPairs` | lib/rugroupy/group.rb:18-26 | `EntityGrouper#similiar` returns `_id.e` of each ranked, paginated record, in order |
| `Similarity.SimilarTo` | lib/rugroupy/entity.rb:70-82 | `Entity#similiar` returns the other member of the pair of each ranked, paginated record, in order |
| `Similarity.QuerySelects` | lib/rugroupy/group.rb:19-21 | every record a query returns is in the count collection and matches the criterion |
| `Similarity.QueryRanked` | lib/rugroupy/group.rb:22-24 | a query's records are ranked by count in the requested direction and number at most a positive limit |
| `Similarity.QueryComplete` | lib/rugroupy/group.rb:19-24 | without `skip` and `limit` a query returns every matching record, as often as the collection holds it |
| `Similarity.SimilarPairsSound` | lib/rugroupy/group.rb:18-26 | each returned pair is the pair of a count record under the requested tag, or under no tag |
| `Similarity.SimilarToSound` | lib/rugroupy/entity.rb:70-82 | each returned id shares a count record under the requested tag (or none) with the entity |
| `Similarity.SimilarToPaired` | lib/rugroupy/entity.rb:78-81 | an id returned without `skip`/`limit` is the other member of a matching record's pair |
| `Similarity.PairedIsSimilar` | lib/rugroupy/entity.rb:78-81 | the other member of every matching record's pair is returned when there is no `skip`/`limit` |
| `Similarity.SimilarSymmetric` | lib/rugroupy/entity.rb:70-82 | for distinct ids, `b` is similar to `a` exactly when `a` is similar to `b` |
| `Similarity.SharedValueMakesSimilar` | lib/rugroupy/entity.rb:70-82 | after counting, two distinct entities listed under the same (tag, value) key are similar to each other under that tag and under no tag |
| `Similarity.SimilarOnlyIfShared` | lib/rugroupy/entity.rb:70-82 | after counting, an id similar to `a` shares some (tag, value) record with `a`, of the requested tag when one is given |
| `Similarity.CountedKeyShared` | lib/rugroupy/group.rb:34-64 | every key of the count collection comes from an inverted record whose tag it covers and whose list holds both ids |
| `Similarity.CountPhaseSource` | lib/rugroupy/group.rb:41-45 | every emitted count key comes from a record whose tag it covers and whose list holds both ids |
| `Entities.AddToSet` | lib/rugroupy/entity.rb:59-63 | `$addToSet`/`$each` keeps the array as a prefix, holds exactly the old and the new values, and adds no duplicate |
| `Entities.PullAll` | lib/rugroupy/entity.rb:56-63 | `$pull`/`$pullAll` keeps exactly the elements not listed and adds no duplicate |
| `Entities.AddToSetPresent` | lib/rugroupy/entity.rb:59-63 | adding values already present changes nothing |
| `Entities.PullAllAbsent` | lib/rugroupy/entity.rb:62-63 | pulling values not present changes nothing |
| `Entities.TagIsUnion` | lib/rugroupy/entity.rb:55-63 | after tagging, the tag's values are the union of the old values and the new ones |
| `Entities.UntagRemoves` | lib/rugroupy/entity.rb:50-63 | after untagging, the tag holds exactly the old values not listed, and its field stays |
| `Entities.OtherTagsUntouched` | lib/rugroupy/entity.rb:58-66 | tagging and untagging leave every other tag field as it was |
| `Entities.TagIdempotent` | lib/rugroupy/entity.rb:45-47 | tagging twice with the same argument equals tagging once |
| `Entities.UntagIdempotent` | lib/rugroupy/entity.rb:50-53 | untagging twice with the same argument equals untagging once |
| `Entities.TaggedOnce` | lib/rugroupy/entity.rb:55-60 | after tagging a scalar, the tag holds exactly one copy of it |
| `Entities.TaggedWellFormed` | lib/rugroupy/entity.rb:55-66 | tagging keeps the tags document free of duplicate fields and duplicate values |
| `Entities.UntaggedWellFormed` | lib/rugroupy/entity.rb:55-66 | untagging keeps the tags document free of duplicate fields and duplicate values |
| `Entities.ZipScenario` | test/test_entity.rb:105-120 | tagging `zip` with `[22204, 22207]` and then `22206` leaves the three values under the one field |
| `Entities.UntagScenario` | test/test_entity.rb:68-86 | tagging and untagging one value leaves the field as an empty array |
| `Entities.CreateIdempotent` | lib/rugroupy/entity.rb:15-21 | creating twice equals creating once, creating an existing entity changes nothing, and creation with `create` leaves the entity present |
| `Entities.AppliedTouchesOne` | lib/rugroupy/entity.rb:65-66 | a tag update changes only its own entity's document, and nothing when the id is missing |
| `Entities.EntityStore.Create` | lib/rugroupy/entity.rb:7-22 | inserts `{_id: id, tags: {}}` when asked to and the id is new, otherwise leaves the collection as it was |
| `Entities.EntityStore.Get` | lib/rugroupy/entity.rb:24-26 | returns the entity's document exactly when it exists |
| `Entities.EntityStore.Delete` | lib/rugroupy/entity.rb:28-31 | removes the entity's document and nothing else |
| `Entities.EntityStore.ClearTags` | lib/rugroupy/entity.rb:33-38 | sets the entity's tags to the empty document and keeps the entity; no effect on a missing id |
| `Entities.EntityStore.HasTag` | lib/rugroupy/entity.rb:40-43 | true exactly when the tag is a field of the entity's tags and the value is among its values; `None` for a missing entity |
| `Entities.EntityStore.ApplyTag` | lib/rugroupy/entity.rb:55-68 | updates the entity's tags with `$addToSet`/`$each` or `$pull`/`$pullAll` on `tags.<tag>` and keeps the store free of duplicates |
| `Entities.EntityStore.Tag` | lib/rugroupy/entity.rb:45-48 | the set-union update of `apply_tag` |
| `Entities.EntityStore.Untag` | lib/rugroupy/entity.rb:50-53 | the removal update of `apply_tag` |
| `Grouping.DefaultGroupCounts` | lib/rugroupy/group.rb:8-10 | under the defaults, a pair key's count is the number of (tag, value) keys listing both entities, for duplicate-free lists |
| `Grouping.EntityGrouper.constructor` | lib/rugroupy/group.rb:12-16 | a new grouper holds the inverted and count collections the server already has, unchanged |
| `Grouping.EntityGrouper.InvertEntities` | lib/rugroupy/group.rb:66-98 | replaces the inverted collection with `Inverted` of the entity collection; the count collection is untouched |
| `Grouping.EntityGrouper.CountEntities` | lib/rugroupy/group.rb:34-64 | replaces the count collection with `Counts` of the inverted collection, which it only reads |
| `Grouping.EntityGrouper.Group` | lib/rugroupy/group.rb:28-32 | inversion with the given or default include and dynamic-tag functions, then counting with the given or default score |

## Left out

- MongoDB plumbing is not modelled: connections, `create_collection`,
  `ensure_index`, `:safe` writes, the projection `:fields`, and how
  `map_reduce(:out => …)` replaces a collection. The output collections are
  fields the jobs assign.
- Scan order: `Grouping.EntityGrouper.Group` takes the entity collection
  as a sequence in the server's scan order. The link from
  `Entities.EntityStore`'s map to that sequence is not modelled.
- The JavaScript source strings spliced into the jobs are not parsed. The
  functions are Dafny function values.
- The dynamic-tag function emits `(tag, value) -> ids` keys only. The
  tag-less keys JavaScript would allow are not modelled.
- Floating-point scores and counts are not modelled. Beyond 2^53,
  JavaScript numbers lose precision; the model's integers do not.
- Concurrency between `group` and tag updates is not modelled.
- Tag names containing `.` or starting with `$` would address nested
  fields. The model treats every tag name as one field.
- Value equality is structural, and structured values compare field by
  field in order. Ruby's `member?` in `has_tag` ignores hash field order.
  `$pull` of a structured value matches like a query. Neither is modelled.
- `$addToSet` with `$each: []` on a missing field is modelled as creating
  an empty array.
- `has_tag` on a missing entity raises in Ruby (`nil['tags']`). That is
  `None` here.
- Similarity.Page: `skip` is a natural number. A negative skip, which the
  server rejects with an error, is not modelled. A negative limit is
  modelled as its absolute value; that the server returns it in a single
  batch and closes the cursor is not observable in the result.
- Similarity.SortByCount: states only ranked-and-permutation. The order of
  equal counts is the server's choice and is not specified.
- Grouping.DefaultGroupCounts: assumes the inverted lists are free of
  duplicate ids. That this follows from a duplicate-free tag store is not
  proved.
- Server evaluation order: MongoDB may batch reduce calls, and fixes
  neither the order of the values passed to reduce nor the order of the
  output records. The first-emission key order and emission-order value
  lists of `MapReduce.Folded` and `MapReduce.Reduced` are the model's
  choice. Counting does not depend on it (`Counting.RecordEmitsIgnoreOrder`,
  `Counting.SumPermutation`); the order of ids in an inverted list does.
- String order: `Strings.LexLe` compares `char`s, which are Unicode scalar
  values. JavaScript's `sort()` and `<` compare UTF-16 code units. The two
  orders differ for ids that mix characters above U+FFFF with characters
  in U+E000 to U+FFFF; such ids are outside the model.
- Tag order: `for (tag in this.tags)` visits integer-like tag names
  first, in numeric order, then the others in insertion order. The model
  visits every tag in field order, so for such tag names the order of
  emissions differs.
- Tag values: `Documents.Value` has strings, integers, booleans and
  embedded documents. Floats, arrays, null and dates as tag values are not
  modelled.
- A new grouper's collections are whatever the server holds: the
  constructor takes them as parameters and does not read them.
- The test suites need a live server. Only two of their entity scenarios
  are stated, as `Entities.ZipScenario` and `Entities.UntagScenario`.

## Findings

| source | as written | input that shows it | evidently intended | confidence | as-written member | corrected member |
|---|---|---|---|---|---|---|
| lib/rugroupy/group.rb:41-43 | `for (x in entities)` yields positions as strings, so `x < y` compares `"10"` with `"2"` as text | an inverted record listing 11 distinct ids, sorted `s[0..10]`: the pair at positions 10 and 2 is emitted as `{e: [s[10], s[2]]}`. If the two entities also share a smaller record, their tag-free count is split between `[s[2], s[10]]` and `[s[10], s[2]]` | compare positions as numbers, so every pair key lists the earlier-sorting id first | not executed | `Counting.AsWrittenReversesPair` | `Counting.CountsCanonical` |
