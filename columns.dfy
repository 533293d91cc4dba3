/**
 * Column lists as Python dictionaries keep them: a key is added at the end the
 * first time it is assigned and keeps its place afterwards.
 */
module Columns {

  predicate NoDuplicates(keys: seq<string>) {
    forall i, j :: 0 <= i < j < |keys| ==> keys[i] != keys[j]
  }

  /** Assigning each of `extras` in turn: the ones not yet present are appended, in order. */
  function AppendAbsent(keys: seq<string>, extras: seq<string>): (r: seq<string>)
    ensures keys <= r
    decreases |extras|
  {
    if extras == [] then keys
    else
      var next := if extras[0] in keys then keys else keys + [extras[0]];
      AppendAbsent(next, extras[1..])
  }

  /** The merged list holds the old keys and the extras, each once if the old keys had no repeats. */
  lemma {:induction false} AppendAbsentContents(keys: seq<string>, extras: seq<string>)
    ensures forall k :: k in AppendAbsent(keys, extras) <==> k in keys || k in extras
    ensures NoDuplicates(keys) ==> NoDuplicates(AppendAbsent(keys, extras))
    decreases |extras|
  {
    if extras != [] {
      var next := if extras[0] in keys then keys else keys + [extras[0]];
      AppendAbsentContents(next, extras[1..]);
    }
  }

  /** Once every extra column is present, assigning them again changes nothing. */
  lemma {:induction false} AppendPresent(keys: seq<string>, extras: seq<string>)
    requires forall k :: k in extras ==> k in keys
    ensures AppendAbsent(keys, extras) == keys
  {
    if extras != [] {
      AppendPresent(keys, extras[1..]);
    }
  }

  /** Merging the same columns twice is the same as merging them once. */
  lemma AppendAbsentIdempotent(keys: seq<string>, extras: seq<string>)
    ensures AppendAbsent(AppendAbsent(keys, extras), extras) == AppendAbsent(keys, extras)
  {
    AppendAbsentContents(keys, extras);
    AppendPresent(AppendAbsent(keys, extras), extras);
  }

  /** The column list of a CSV header: the names in order of first appearance. */
  function HeaderKeys(header: seq<string>): seq<string> {
    AppendAbsent([], header)
  }

  /** A header's column list names every column of the header once. */
  lemma HeaderKeysContents(header: seq<string>)
    ensures NoDuplicates(HeaderKeys(header))
    ensures forall k :: k in HeaderKeys(header) <==> k in header
  {
    AppendAbsentContents([], header);
  }

  /**
   * The output header: the first row's columns, then each extra column that row
   * does not already have, in the order listed.
   */
  method MergeColumns(first: seq<string>, extras: seq<string>) returns (fieldnames: seq<string>)
    ensures fieldnames == AppendAbsent(first, extras)
  {
    fieldnames := first;
    var i := 0;
    while i < |extras|
      invariant 0 <= i <= |extras|
      invariant AppendAbsent(fieldnames, extras[i..]) == AppendAbsent(first, extras)
    {
      assert extras[i..][1..] == extras[i + 1..];
      if extras[i] !in fieldnames {
        fieldnames := fieldnames + [extras[i]];
      }
      i := i + 1;
    }
  }
}
