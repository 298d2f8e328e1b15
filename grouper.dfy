/** The grouper, `Groupy::EntityGrouper` (lib/rugroupy/group.rb).

    `group(options)` runs the inversion stage over the entity collection,
    replacing the inverted collection `<entity>_invert`, and then the
    counting stage over the inverted collection, replacing the count
    collection `<entity>_count`. Each stage's function may be given in the
    options; a missing one takes its default. */
module Grouping {
  import opened Collections
  import opened Documents
  import opened Inversion
  import opened Strings
  import opened Counting

  /** The options hash of `group`. */
  datatype Options = Options(
    includeFunction: Option<Tag -> bool>,
    dynamicTagFunction: Option<DynamicTags>,
    scoreFunction: Option<Score>)

  /** `options[:includeFunction] || @@defaultIncludeFunction` */
  function IncludeOf(options: Options): Tag -> bool
  {
    match options.includeFunction
    case Some(f) => f
    case None => IncludeAll
  }

  /** `options[:dynamicTagFunction] || @@dynamicTagFunction` */
  function DynamicOf(options: Options): DynamicTags
  {
    match options.dynamicTagFunction
    case Some(f) => f
    case None => NoDynamicTags
  }

  /** `options[:scoreFunction] || @@defaultScoreFunction` */
  function ScoreOf(options: Options): Score
  {
    match options.scoreFunction
    case Some(f) => f
    case None => DefaultScore
  }

  /** With no options, `group` includes every tag, adds no dynamic tags
      and scores every tag 1. Then, when no entity list of the inverted
      collection holds an id twice, the count of a pair key `(a, b)`, `a`
      sorting before `b`, is the number of (tag, value) keys that list both
      entities. */
  lemma DefaultGroupCounts(docs: seq<Doc>, k: PairKey)
    requires LexLess(k.a, k.b)
    requires forall r :: r in Inverted(docs, IncludeAll, NoDynamicTags) ==> NoDuplicates(r.value)
    ensures var o := Options(None, None, None);
      var inverted := Inverted(docs, IncludeOf(o), DynamicOf(o));
      Lookup(Counts(inverted, ScoreOf(o)), k)
        == if HasKey(CountPhase(inverted, ScoreOf(o)), k) then Some(SharedRecords(inverted, k)) else None
  {
    var inverted := Inverted(docs, IncludeAll, NoDynamicTags);
    CountsLookup(inverted, DefaultScore, k);
    assert forall i :: 0 <= i < |inverted| ==> NoDuplicates(inverted[i].value) by {
      forall i | 0 <= i < |inverted| ensures NoDuplicates(inverted[i].value) {
        assert inverted[i] in inverted;
      }
    }
    SharedWeight(inverted, k);
  }

  class EntityGrouper {
    /** The inverted collection, `<entity>_invert`. */
    var invert: seq<InvRecord>
    /** The count collection, `<entity>_count`. */
    var count: seq<CountRecord>

    /** A grouper only takes handles on the two output collections, which
        keep whatever the server already holds: `invert0` and `count0`. */
    constructor (invert0: seq<InvRecord>, count0: seq<CountRecord>)
      ensures invert == invert0 && count == count0
    {
      invert := invert0;
      count := count0;
    }

    /** `invert_entities`: replaces the inverted collection with the output
        of the inversion job over the entity collection `docs`. */
    method InvertEntities(docs: seq<Doc>, included: Tag -> bool, dynamicTags: DynamicTags)
      modifies this
      ensures invert == Inverted(docs, included, dynamicTags)
      ensures count == old(count)
    {
      invert := Inversion.InvertEntities(docs, included, dynamicTags);
    }

    /** `count_entities`: replaces the count collection with the output of
        the counting job; the inverted collection is only read. */
    method CountEntities(score: Score)
      modifies this
      ensures invert == old(invert)
      ensures count == Counts(invert, score)
    {
      count := Counting.CountEntities(invert, score);
    }

    /** `group(options)`: inversion first, then counting. */
    method Group(docs: seq<Doc>, options: Options)
      modifies this
      ensures invert == Inverted(docs, IncludeOf(options), DynamicOf(options))
      ensures count == Counts(invert, ScoreOf(options))
    {
      InvertEntities(docs, IncludeOf(options), DynamicOf(options));
      CountEntities(ScoreOf(options));
    }
  }
}
