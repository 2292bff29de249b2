/**
 * The array and string operations the search-path construction relies on:
 * `filter(Boolean)` over optional strings, `join(sep)`, and, as its
 * inverse, `split(sep)`.
 */
module Delimited {

  import opened Wrappers

  /** JavaScript truthiness of a string that may be `undefined`: `undefined`
      and the empty string are falsy. */
  predicate Truthy(v: Option<string>) {
    v.Some? && v.value != ""
  }

  /** `vs.filter(Boolean)`: the truthy entries, in order. */
  function FilterTruthy(vs: seq<Option<string>>): (r: seq<string>)
    ensures |r| <= |vs|
    ensures forall i :: 0 <= i < |r| ==> r[i] != ""
  {
    if vs == [] then []
    else if Truthy(vs[0]) then [vs[0].value] + FilterTruthy(vs[1..])
    else FilterTruthy(vs[1..])
  }

  /** Filtering distributes over concatenation, so order is preserved. */
  lemma {:induction false} FilterTruthyAppend(a: seq<Option<string>>, b: seq<Option<string>>)
    ensures FilterTruthy(a + b) == FilterTruthy(a) + FilterTruthy(b)
  {
    if a == [] {
      assert a + b == b;
    } else {
      assert (a + b)[1..] == a[1..] + b;
      FilterTruthyAppend(a[1..], b);
    }
  }

  /** `parts.join(sep)`. */
  function Join(parts: seq<string>, sep: string): string {
    if |parts| == 0 then ""
    else if |parts| == 1 then parts[0]
    else Join(parts[..|parts| - 1], sep) + sep + parts[|parts| - 1]
  }

  /** `s.split(sep)` for a one-character separator: the maximal runs between
      separators, so the empty string splits into one empty field. */
  function Split(s: string, sep: char): (r: seq<string>)
    ensures |r| > 0
  {
    if s == [] then [""]
    else
      var tail := Split(s[1..], sep);
      if s[0] == sep then [""] + tail else [[s[0]] + tail[0]] + tail[1..]
  }

  /** A string without the separator is one field. */
  lemma {:induction false} SplitNoSeparator(s: string, sep: char)
    requires sep !in s
    ensures Split(s, sep) == [s]
  {
    if s != [] {
      SplitNoSeparator(s[1..], sep);
      assert [s[0]] + s[1..] == s;
    }
  }

  /** Splitting at a separator that follows a separator-free prefix puts the
      prefix in a field of its own and splits the rest independently. */
  lemma {:induction false} SplitAtFirst(a: string, b: string, sep: char)
    requires sep !in a
    ensures Split(a + [sep] + b, sep) == [a] + Split(b, sep)
  {
    if a != [] {
      assert (a + [sep] + b)[1..] == a[1..] + [sep] + b;
      SplitAtFirst(a[1..], b, sep);
      assert [a[0]] + a[1..] == a;
    } else {
      assert a + [sep] + b == [sep] + b;
    }
  }

  /** Split undoes Join when no part contains the separator. */
  lemma {:induction false} SplitJoin(parts: seq<string>, sep: char)
    requires |parts| > 0
    requires forall i :: 0 <= i < |parts| ==> sep !in parts[i]
    ensures Split(Join(parts, [sep]), sep) == parts
  {
    if |parts| == 1 {
      SplitNoSeparator(parts[0], sep);
    } else {
      SplitJoinFront(parts, sep);
    }
  }

  /** Joining puts the first part, then the separator, then the join of the rest. */
  lemma {:induction false} JoinFront(parts: seq<string>, sep: string)
    requires |parts| >= 2
    ensures Join(parts, sep) == parts[0] + sep + Join(parts[1..], sep)
  {
    if |parts| > 2 {
      var init := parts[..|parts| - 1];
      JoinFront(init, sep);
      assert init[1..] == parts[1..][..|parts[1..]| - 1];
    }
  }

  lemma {:induction false} SplitJoinFront(parts: seq<string>, sep: char)
    requires |parts| >= 2
    requires forall i :: 0 <= i < |parts| ==> sep !in parts[i]
    ensures Split(Join(parts, [sep]), sep) == parts
  {
    JoinFront(parts, [sep]);
    SplitAtFirst(parts[0], Join(parts[1..], [sep]), sep);
    if |parts| == 2 {
      SplitNoSeparator(parts[1], sep);
    } else {
      SplitJoinFront(parts[1..], sep);
    }
    assert parts == [parts[0]] + parts[1..];
  }

  /** Joined separator-free parts followed by a separator and any text `b`
      split back into those parts followed by the fields of `b`. */
  lemma {:induction false} SplitJoinThen(parts: seq<string>, b: string, sep: char)
    requires |parts| > 0
    requires forall i :: 0 <= i < |parts| ==> sep !in parts[i]
    ensures Split(Join(parts, [sep]) + [sep] + b, sep) == parts + Split(b, sep)
  {
    if |parts| == 1 {
      SplitAtFirst(parts[0], b, sep);
    } else {
      var rest := parts[1..];
      var j := Join(rest, [sep]);
      var tail := j + [sep] + b;
      JoinFront(parts, [sep]);
      assert Join(parts, [sep]) + [sep] + b == parts[0] + [sep] + tail;
      SplitAtFirst(parts[0], tail, sep);
      assert forall i :: 0 <= i < |rest| ==> rest[i] == parts[i + 1];
      SplitJoinThen(rest, b, sep);
      assert parts == [parts[0]] + rest;
      AppendAssoc([parts[0]], rest, Split(b, sep));
    }
  }

  lemma AppendAssoc<T>(a: seq<T>, b: seq<T>, c: seq<T>)
    ensures a + (b + c) == (a + b) + c
  {
  }
}
