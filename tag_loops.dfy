/**
 * The nested accumulating loops of `plot_tags_pie`: seconds per tag. They sit
 * apart from the `Work` class so that each loop is proved against its
 * specification function with only the facts it needs.
 */
module TagLoops {
  import opened Tallies
  import opened Activities
  import opened Tags

  /**
   * The inner loop of `plot_tags_pie`: every tag of `list` adds `secs` to its
   * entry, so the sums after `done` become the sums after `done` and one pair
   * per tag.
   */
  method AddTags(tagSums: map<string, real>, ghost done: seq<TagPair>, list: seq<string>, secs: real)
    returns (sums: map<string, real>)
    requires tagSums == TagTally(done)
    ensures sums == TagTally(done + PairsOf(list, secs))
  {
    ghost var ps := PairsOf(list, secs);
    sums := tagSums;
    var j := 0;
    assert done + ps[..0] == done;
    while j < |list|
      invariant 0 <= j <= |list|
      invariant sums == TagTally(done + ps[..j])
    {
      var tag := list[j];
      var pair := TagPair(tag, secs);
      ghost var before := done + ps[..j];
      assert ps[j] == pair;
      assert done + ps[..j + 1] == before + [pair];
      TallyAppend(before, pair, TagKey, PairSeconds);
      assert |before + [pair]| == |before| + 1;
      sums := sums[tag := Get(sums, tag) + secs];
      j := j + 1;
    }
    assert ps[..|list|] == ps;
  }

  /**
   * One pass of the outer loop of `plot_tags_pie(year)`: an activity of
   * `year` adds its seconds to each of its tags (its `Work Type`, or its
   * project code when that is empty); any other activity adds nothing.
   */
  method AddActivity(tagSums: map<string, real>, ghost done: seq<TagPair>, act: Activity, year: int)
    returns (sums: map<string, real>)
    requires tagSums == TagTally(done)
    ensures sums == TagTally(done + ActivityPairs(act, year))
  {
    sums := tagSums;
    if act.day.year == year {
      var tags := act.tags;
      if tags == "" {
        tags := act.projectCode;
      }
      assert tags == TagsOf(act);
      if tags != "" {
        sums := AddTags(sums, done, TagList(tags), act.duration as real);
      } else {
        assert TagList(tags) == [];
        assert done + ActivityPairs(act, year) == done;
      }
    } else {
      assert done + ActivityPairs(act, year) == done;
    }
  }

  /**
   * The outer loop of `plot_tags_pie(year)`: the sums are each tag's seconds
   * in the year.
   */
  method SumPerTag(acts: seq<Activity>, year: int) returns (tagSums: map<string, real>)
    ensures tagSums == TagSum(acts, year)
  {
    tagSums := map[];
    var i := 0;
    while i < |acts|
      invariant 0 <= i <= |acts|
      invariant tagSums == TagTally(YearPairs(acts[..i], year))
    {
      var act := acts[i];
      YearPairsStep(acts, i, year);
      tagSums := AddActivity(tagSums, YearPairs(acts[..i], year), act, year);
      i := i + 1;
    }
    assert acts[..|acts|] == acts;
  }

  /** The pairs of one more activity are the pairs so far and that activity's pairs. */
  lemma YearPairsStep(acts: seq<Activity>, i: nat, year: int)
    requires i < |acts|
    ensures YearPairs(acts[..i + 1], year) == YearPairs(acts[..i], year) + ActivityPairs(acts[i], year)
  {
    assert acts[..i + 1][..i] == acts[..i];
  }
}
