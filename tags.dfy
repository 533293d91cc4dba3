/**
 * The tags of the activities and the time spent per tag in a year, as the
 * pie chart of `plot_tags_pie` sums them: an activity's tag text is its
 * `Work Type` cell, or its `Project Code` cell when that is empty, read as a
 * comma-separated list whose pieces are stripped and whose empty pieces are
 * dropped; every tag of every activity of the year adds the activity's
 * duration to that tag's entry, once per occurrence.
 */
module Tags {
  import opened Wrappers
  import opened Text
  import opened Buckets
  import opened Tallies
  import opened Activities

  /**
   * The tag text: the `tags` attribute (`Work Type`) unless it is empty, then
   * the row's `Project Code`. No activity has a `Tags` or `Tag` attribute, so
   * those two lookups always give `None`.
   */
  function TagsOf(a: Activity): string {
    if a.tags != "" then a.tags else a.projectCode
  }

  /** `[t.strip() for t in parts if t.strip()]`. */
  function StrippedNonEmpty(parts: seq<string>): (tags: seq<string>)
    ensures |tags| <= |parts|
  {
    if parts == [] then []
    else (if Strip(parts[0]) != "" then [Strip(parts[0])] else []) + StrippedNonEmpty(parts[1..])
  }

  /** The tags of a comma-separated text. */
  function TagList(s: string): seq<string> {
    StrippedNonEmpty(Split(s, ','))
  }

  /** What a tag can look like: not empty, no comma, no whitespace at either end. */
  predicate WellFormedTag(t: string) {
    t != "" && ',' !in t && Strip(t) == t
  }

  /** A text with no whitespace at either end is left alone by `strip`. */
  lemma StripOfStripped(s: string)
    requires s == [] || (!IsSpace(s[0]) && !IsSpace(s[|s| - 1]))
    ensures Strip(s) == s
  {
    assert SkipSpaces(s, 0) == 0;
    assert s[0..] == s;
    assert BackSpaces(s, 0, |s|) == |s|;
  }

  /** Stripping twice is stripping once, and a stripped piece holds no character the piece did not. */
  lemma StripIdempotent(s: string)
    ensures Strip(Strip(s)) == Strip(s)
    ensures forall c :: c in Strip(s) ==> c in s
  {
    var i, j := StripKeepsTheMiddle(s);
    if i < j {
      assert Strip(s)[0] == s[i] && Strip(s)[|Strip(s)| - 1] == s[j - 1];
    }
    StripOfStripped(Strip(s));
    forall c | c in Strip(s)
      ensures c in s
    {
      var k :| 0 <= k < |Strip(s)| && Strip(s)[k] == c;
      assert s[i + k] == c;
    }
  }

  /** The kept tags are exactly the non-empty stripped pieces. */
  lemma {:induction false} StrippedMembers(parts: seq<string>, t: string)
    ensures t in StrippedNonEmpty(parts) <==> t != "" && exists p :: p in parts && Strip(p) == t
  {
    if parts != [] {
      StrippedMembers(parts[1..], t);
      assert forall p :: p in parts <==> p == parts[0] || p in parts[1..];
    }
  }

  /** Every tag of a text is well formed. */
  lemma TagsAreWellFormed(s: string, t: string)
    requires t in TagList(s)
    ensures WellFormedTag(t)
  {
    StrippedMembers(Split(s, ','), t);
    var p :| p in Split(s, ',') && Strip(p) == t;
    SplitJoin(s, ',');
    StripIdempotent(p);
  }

  /** Pieces that contain no separator come back from `split` after `join`. */
  lemma {:induction false} SplitOfJoin(parts: seq<string>, sep: char)
    requires |parts| >= 1
    requires forall k :: 0 <= k < |parts| ==> sep !in parts[k]
    ensures Split(Join(parts, sep), sep) == parts
    decreases |parts|
  {
    if |parts| == 1 {
      SplitWithoutSeparator(parts[0], sep);
    } else {
      SplitOfJoin(parts[1..], sep);
      SplitAtSeparatorPrefix(parts[0], Join(parts[1..], sep), sep);
    }
  }

  /** Well-formed tags pass through unchanged. */
  lemma {:induction false} StrippedWellFormed(tags: seq<string>)
    requires forall k :: 0 <= k < |tags| ==> WellFormedTag(tags[k])
    ensures StrippedNonEmpty(tags) == tags
  {
    if tags != [] {
      StrippedWellFormed(tags[1..]);
    }
  }

  /** Writing well-formed tags joined by commas and reading them back gives the same tags. */
  lemma TagListOfJoin(tags: seq<string>)
    requires |tags| >= 1
    requires forall k :: 0 <= k < |tags| ==> WellFormedTag(tags[k])
    ensures TagList(Join(tags, ',')) == tags
  {
    SplitOfJoin(tags, ',');
    StrippedWellFormed(tags);
  }

  // ---------------------------------------------------------------------------
  // Time per tag

  /** A tag and the seconds it is credited with. */
  datatype TagPair = TagPair(tag: string, secs: real)

  /** One `(tag, seconds)` pair per tag of the list, in order: what the inner loop adds. */
  function PairsOf(tags: seq<string>, secs: real): (ps: seq<TagPair>)
    ensures |ps| == |tags|
    ensures forall j :: 0 <= j < |tags| ==> ps[j] == TagPair(tags[j], secs)
  {
    if tags == [] then [] else [TagPair(tags[0], secs)] + PairsOf(tags[1..], secs)
  }

  /** The pairs an activity adds: one per tag when it lies in `year`, none otherwise. */
  function ActivityPairs(a: Activity, year: int): seq<TagPair> {
    if a.day.year == year then PairsOf(TagList(TagsOf(a)), a.duration as real) else []
  }

  /** The pairs of all activities, in the order the loops meet them. */
  function YearPairs(acts: seq<Activity>, year: int): seq<TagPair> {
    if acts == [] then []
    else YearPairs(acts[..|acts| - 1], year) + ActivityPairs(acts[|acts| - 1], year)
  }

  function TagKey(p: TagPair): Option<string> {
    Some(p.tag)
  }

  function PairSeconds(p: TagPair): real {
    p.secs
  }

  /** `tag_sums` after the pairs `ps`. */
  function TagTally(ps: seq<TagPair>): map<string, real> {
    Tally(ps, TagKey, PairSeconds, |ps|)
  }

  /** `tag_sums` after every activity: each tag's seconds in `year`. */
  function TagSum(acts: seq<Activity>, year: int): map<string, real> {
    TagTally(YearPairs(acts, year))
  }

  /** Sums over the pairs of the activities are sums over the activities of each one's pairs. */
  lemma {:induction false} YearPairsSum(acts: seq<Activity>, year: int, f: TagPair -> real, g: Activity -> real)
    requires forall a :: a in acts ==> RealSum(ActivityPairs(a, year), f) == g(a)
    ensures RealSum(YearPairs(acts, year), f) == RealSum(acts, g)
    decreases |acts|
  {
    if acts != [] {
      var init, last := acts[..|acts| - 1], acts[|acts| - 1];
      assert acts == init + [last];
      YearPairsSum(init, year, f, g);
      RealSumConcat(YearPairs(init, year), ActivityPairs(last, year), f);
      RealSumAppend(init, last, g);
    }
  }

  /** How many times `t` occurs in `tags`. */
  function Occurrences(tags: seq<string>, t: string): nat {
    if tags == [] then 0 else (if tags[0] == t then 1 else 0) + Occurrences(tags[1..], t)
  }

  /** The occurrences are the multiplicity of `t` in the multiset of the tags. */
  lemma {:induction false} OccurrencesIsMultiplicity(tags: seq<string>, t: string)
    ensures Occurrences(tags, t) == multiset(tags)[t]
  {
    if tags != [] {
      OccurrencesIsMultiplicity(tags[1..], t);
      assert tags == [tags[0]] + tags[1..];
      assert multiset(tags) == multiset{tags[0]} + multiset(tags[1..]);
    }
  }

  /** What one tag's pairs add to tag `t`: the seconds once per occurrence of `t`. */
  lemma {:induction false} PairsOfShare(tags: seq<string>, secs: real, t: string)
    ensures RealSum(PairsOf(tags, secs), Share(TagKey, PairSeconds, t)) == secs * (Occurrences(tags, t) as real)
  {
    if tags != [] {
      var rest, f := tags[1..], Share(TagKey, PairSeconds, t);
      PairsOfShare(rest, secs, t);
      var ps := PairsOf(tags, secs);
      var tail := secs * (Occurrences(rest, t) as real);
      assert ps[1..] == PairsOf(rest, secs);
      assert RealSum(ps, f) == f(ps[0]) + tail;
      assert ps[0] == TagPair(tags[0], secs) && TagKey(ps[0]) == Some(tags[0]);
      assert f(ps[0]) == if TagKey(ps[0]) == Some(t) then PairSeconds(ps[0]) else 0.0;
      if tags[0] == t {
        assert Occurrences(tags, t) == Occurrences(rest, t) + 1;
        TimesSuccessor(secs, Occurrences(rest, t));
      } else {
        assert Occurrences(tags, t) == Occurrences(rest, t);
      }
    }
  }

  /** What one tag's pairs add in all: the seconds once per tag. */
  lemma {:induction false} PairsOfTotal(tags: seq<string>, secs: real)
    ensures RealSum(PairsOf(tags, secs), Counted(TagKey, PairSeconds)) == secs * (|tags| as real)
  {
    if tags != [] {
      var rest, f := tags[1..], Counted(TagKey, PairSeconds);
      PairsOfTotal(rest, secs);
      var ps := PairsOf(tags, secs);
      assert ps[1..] == PairsOf(rest, secs);
      assert f(ps[0]) == if TagKey(ps[0]).Some? then PairSeconds(ps[0]) else 0.0;
      assert RealSum(ps, f) == secs + RealSum(PairsOf(rest, secs), f);
      TimesSuccessor(secs, |rest|);
    }
  }

  lemma TimesSuccessor(x: real, c: int)
    ensures x * ((c + 1) as real) == x + x * (c as real)
  {
  }

  /** An activity's seconds times the number of times `t` occurs among its tags, in `year`. */
  function TagSeconds(year: int, t: string): Activity -> real {
    (a: Activity) => if a.day.year == year then (a.duration as real) * (Occurrences(TagList(TagsOf(a)), t) as real) else 0.0
  }

  /** An activity's seconds times its number of tags, in `year`. */
  function TaggedSeconds(year: int): Activity -> real {
    (a: Activity) => if a.day.year == year then (a.duration as real) * (|TagList(TagsOf(a))| as real) else 0.0
  }

  lemma ActivityShare(a: Activity, year: int, t: string)
    ensures RealSum(ActivityPairs(a, year), Share(TagKey, PairSeconds, t)) == TagSeconds(year, t)(a)
  {
    var tags, secs, f := TagList(TagsOf(a)), a.duration as real, Share(TagKey, PairSeconds, t);
    if a.day.year == year {
      calc {
        RealSum(ActivityPairs(a, year), f);
        RealSum(PairsOf(tags, secs), f);
        { PairsOfShare(tags, secs, t); }
        secs * (Occurrences(tags, t) as real);
        TagSeconds(year, t)(a);
      }
    } else {
      assert ActivityPairs(a, year) == [];
      assert TagSeconds(year, t)(a) == 0.0;
    }
  }

  lemma ActivityTotal(a: Activity, year: int)
    ensures RealSum(ActivityPairs(a, year), Counted(TagKey, PairSeconds)) == TaggedSeconds(year)(a)
  {
    var tags, secs, f := TagList(TagsOf(a)), a.duration as real, Counted(TagKey, PairSeconds);
    if a.day.year == year {
      calc {
        RealSum(ActivityPairs(a, year), f);
        RealSum(PairsOf(tags, secs), f);
        { PairsOfTotal(tags, secs); }
        secs * (|tags| as real);
        TaggedSeconds(year)(a);
      }
    } else {
      assert ActivityPairs(a, year) == [];
      assert TaggedSeconds(year)(a) == 0.0;
    }
  }

  /** Each tag's entry is the seconds of the year's activities carrying it, counted once per occurrence. */
  lemma TagSumValue(acts: seq<Activity>, year: int, t: string)
    ensures Get(TagSum(acts, year), t) == RealSum(acts, TagSeconds(year, t))
  {
    var ps := YearPairs(acts, year);
    TallyValue(ps, TagKey, PairSeconds, |ps|, t);
    assert ps[..|ps|] == ps;
    forall a | a in acts
      ensures RealSum(ActivityPairs(a, year), Share(TagKey, PairSeconds, t)) == TagSeconds(year, t)(a)
    {
      ActivityShare(a, year, t);
    }
    YearPairsSum(acts, year, Share(TagKey, PairSeconds, t), TagSeconds(year, t));
  }

  /** Nothing is lost: the entries add up to every activity's seconds times its number of tags. */
  lemma TagSumTotal(acts: seq<Activity>, year: int)
    ensures var ps := YearPairs(acts, year);
      RealSum(TallyOrder(ps, TagKey, |ps|), ValueIn(TagSum(acts, year))) == RealSum(acts, TaggedSeconds(year))
  {
    var ps := YearPairs(acts, year);
    TallyTotal(ps, TagKey, PairSeconds, |ps|);
    assert ps[..|ps|] == ps;
    forall a | a in acts
      ensures RealSum(ActivityPairs(a, year), Counted(TagKey, PairSeconds)) == TaggedSeconds(year)(a)
    {
      ActivityTotal(a, year);
    }
    YearPairsSum(acts, year, Counted(TagKey, PairSeconds), TaggedSeconds(year));
  }

  /** The tags the pairs carry. */
  function PairTags(ps: seq<TagPair>): set<string> {
    set p | p in ps :: p.tag
  }

  /** The tags of the year's activities. */
  lemma {:induction false} YearPairTags(acts: seq<Activity>, year: int, t: string)
    ensures t in PairTags(YearPairs(acts, year)) <==> exists a :: a in acts && a.day.year == year && t in TagList(TagsOf(a))
    decreases |acts|
  {
    if acts != [] {
      var init, last := acts[..|acts| - 1], acts[|acts| - 1];
      assert acts == init + [last];
      YearPairTags(init, year, t);
      var ps, qs := YearPairs(init, year), ActivityPairs(last, year);
      assert t in PairTags(ps + qs) <==> t in PairTags(ps) || t in PairTags(qs) by {
        assert forall p :: p in ps + qs <==> p in ps || p in qs;
      }
      if last.day.year == year {
        var tags := TagList(TagsOf(last));
        if t in tags {
          var j :| 0 <= j < |tags| && tags[j] == t;
          assert qs[j] == TagPair(t, last.duration as real);
        }
      }
    }
  }

  /** The tags with an entry are the tags of the year's activities, and they are all well formed. */
  lemma TagSumKeys(acts: seq<Activity>, year: int, t: string)
    ensures t in TagSum(acts, year) <==> exists a :: a in acts && a.day.year == year && t in TagList(TagsOf(a))
    ensures t in TagSum(acts, year) ==> WellFormedTag(t)
  {
    var ps := YearPairs(acts, year);
    TallyDomain(ps, TagKey, PairSeconds, |ps|, t);
    YearPairTags(acts, year, t);
    if t in PairTags(ps) {
      var p :| p in ps && p.tag == t;
      var i :| 0 <= i < |ps| && ps[i] == p;
      assert TagKey(ps[i]) == Some(t);
    }
    if t in TagSum(acts, year) {
      var a :| a in acts && a.day.year == year && t in TagList(TagsOf(a));
      TagsAreWellFormed(TagsOf(a), t);
    }
  }
}
