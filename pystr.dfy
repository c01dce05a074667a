/** The Python `str` operations the request handler relies on, for one-character separators. */
module PyStr {
  import opened Wrappers

  /** `s.startswith(prefix)` */
  predicate StartsWith(s: string, prefix: string) {
    |prefix| <= |s| && s[..|prefix|] == prefix
  }

  /** `startswith` holds for every continuation of the prefix and only for those: a string
      that starts with `prefix` is `prefix` followed by the rest of it. */
  lemma StartsWithConcat(prefix: string, rest: string, s: string)
    ensures StartsWith(prefix + rest, prefix)
    ensures StartsWith(s, prefix) ==> s == prefix + s[|prefix|..]
  {
    assert (prefix + rest)[..|prefix|] == prefix;
    if StartsWith(s, prefix) {
      assert s == s[..|prefix|] + s[|prefix|..];
    }
  }

  /** `s.count(c)` for a one-character `c`. */
  function Count(s: string, c: char): (n: nat)
    ensures n <= |s|
    ensures n == 0 <==> c !in s
  {
    if s == [] then 0 else (if s[0] == c then 1 else 0) + Count(s[1..], c)
  }

  /** Counting distributes over concatenation. */
  lemma {:induction false} CountAppend(a: string, b: string, c: char)
    ensures Count(a + b, c) == Count(a, c) + Count(b, c)
  {
    if a == [] {
      assert a + b == b;
    } else {
      assert (a + b)[1..] == a[1..] + b;
      CountAppend(a[1..], b, c);
    }
  }

  /** `sep.join(pieces)`: the pieces with one separator between neighbours. */
  function Join(pieces: seq<string>, sep: char): string
    decreases |pieces|
  {
    if |pieces| == 0 then ""
    else if |pieces| == 1 then pieces[0]
    else pieces[0] + [sep] + Join(pieces[1..], sep)
  }

  /** Joining after a leading piece puts one separator after it. */
  lemma JoinCons(first: string, rest: seq<string>, sep: char)
    requires |rest| >= 1
    ensures Join([first] + rest, sep) == first + [sep] + Join(rest, sep)
  {
    assert ([first] + rest)[1..] == rest;
  }

  /** A character put before the first piece ends up before the whole join. */
  lemma JoinPrepend(c: char, pieces: seq<string>, sep: char)
    requires |pieces| >= 1
    ensures Join([[c] + pieces[0]] + pieces[1..], sep) == [c] + Join(pieces, sep)
  {
    if |pieces| > 1 {
      JoinCons([c] + pieces[0], pieces[1..], sep);
      JoinCons(pieces[0], pieces[1..], sep);
      assert [pieces[0]] + pieces[1..] == pieces;
    }
  }

  /** `s.split(sep)`: the maximal separator-free pieces, empty ones included, so
      that there is always one more piece than there are separators. */
  function SplitAll(s: string, sep: char): (pieces: seq<string>)
    ensures |pieces| == Count(s, sep) + 1
    ensures forall i :: 0 <= i < |pieces| ==> sep !in pieces[i]
    ensures Join(pieces, sep) == s
  {
    if s == [] then [""]
    else
      var rest := SplitAll(s[1..], sep);
      assert [s[0]] + s[1..] == s;
      if s[0] == sep then
        JoinCons("", rest, sep);
        [""] + rest
      else
        JoinPrepend(s[0], rest, sep);
        [[s[0]] + rest[0]] + rest[1..]
  }

  /** `s.split(sep, 1)`: `None` when `sep` does not occur (the list then has a single
      element, so indexing it with `[1]` raises), otherwise the text before and after
      the FIRST occurrence. */
  function SplitFirst(s: string, sep: char): (r: Option<(string, string)>)
    ensures r.None? <==> sep !in s
    ensures r.Some? ==> s == r.value.0 + [sep] + r.value.1 && sep !in r.value.0
  {
    if s == [] then None
    else if s[0] == sep then Some(("", s[1..]))
    else
      match SplitFirst(s[1..], sep)
      case None => None
      case Some((before, after)) =>
        assert [s[0]] + s[1..] == s;
        Some(([s[0]] + before, after))
  }

  /** Splitting at the first separator undoes putting a separator after a separator-free text. */
  lemma {:induction false} SplitFirstOfJoin(before: string, sep: char, after: string)
    requires sep !in before
    ensures SplitFirst(before + [sep] + after, sep) == Some((before, after))
  {
    if before != [] {
      assert (before + [sep] + after)[1..] == before[1..] + [sep] + after;
      SplitFirstOfJoin(before[1..], sep, after);
      assert [before[0]] + before[1..] == before;
    } else {
      assert before + [sep] + after == [sep] + after;
    }
  }

  /** A separator-free text is a single piece. */
  lemma {:induction false} SplitAllNoSeparator(s: string, sep: char)
    requires sep !in s
    ensures SplitAll(s, sep) == [s]
  {
    var r := SplitAll(s, sep);
    assert Count(s, sep) == 0;
    assert |r| == 1;
  }

  /** Splitting stops at every separator: a separator-free head becomes the first piece. */
  lemma {:induction false} SplitAllCons(head: string, sep: char, tail: string)
    requires sep !in head
    ensures SplitAll(head + [sep] + tail, sep) == [head] + SplitAll(tail, sep)
    decreases |head|
  {
    var s := head + [sep] + tail;
    if head == [] {
      assert s == [sep] + tail;
      assert s[1..] == tail;
    } else {
      assert s[0] == head[0] && s[0] != sep;
      assert s[1..] == head[1..] + [sep] + tail;
      SplitAllCons(head[1..], sep, tail);
      var rest := SplitAll(s[1..], sep);
      assert rest[0] == head[1..] && rest[1..] == SplitAll(tail, sep);
      assert [head[0]] + head[1..] == head;
    }
  }

  /** Round trip: splitting the join of separator-free pieces gives the pieces back. */
  lemma {:induction false} SplitAllJoin(pieces: seq<string>, sep: char)
    requires |pieces| >= 1
    requires forall i :: 0 <= i < |pieces| ==> sep !in pieces[i]
    ensures SplitAll(Join(pieces, sep), sep) == pieces
    decreases |pieces|
  {
    if |pieces| == 1 {
      SplitAllNoSeparator(pieces[0], sep);
    } else {
      SplitAllJoin(pieces[1..], sep);
      SplitAllCons(pieces[0], sep, Join(pieces[1..], sep));
      assert [pieces[0]] + pieces[1..] == pieces;
    }
  }
}
