/** The character-level string operations the investment parse relies on:
    counting, first occurrence, `str.split(sep, 1)`, and `str.replace` with a
    one-character pattern (deleting it, or substituting another character). */
module Strings {

  /** Number of occurrences of `c` in `s`. */
  function Count(s: string, c: char): (n: nat)
    ensures n <= |s|
    ensures n == 0 <==> c !in s
  {
    if s == [] then 0 else (if s[0] == c then 1 else 0) + Count(s[1..], c)
  }

  /** Index of the first occurrence of `c` in `s`. */
  function FirstIndex(s: string, c: char): (k: nat)
    requires c in s
    ensures k < |s| && s[k] == c
    ensures c !in s[..k]
  {
    if s[0] == c then 0 else 1 + FirstIndex(s[1..], c)
  }

  /** Python's `s.split(sep, 1)`: cut at the first `sep` only. The result
      has one part (the whole string) when `sep` does not occur, two parts
      otherwise, the first of which holds no `sep`. */
  function SplitOnce(s: string, sep: char): (parts: seq<string>)
    ensures |parts| == (if sep in s then 2 else 1)
    ensures sep !in s ==> parts[0] == s
    ensures sep in s ==> sep !in parts[0] && parts[0] + [sep] + parts[1] == s
  {
    if sep in s then
      var k := FirstIndex(s, sep);
      assert s == s[..k] + [sep] + s[k + 1..];
      [s[..k], s[k + 1..]]
    else
      [s]
  }

  lemma FirstIndexJoin(head: string, tail: string, c: char)
    requires c !in head
    ensures c in head + [c] + tail
    ensures FirstIndex(head + [c] + tail, c) == |head|
  {
    var s := head + [c] + tail;
    assert s[|head|] == c;
    var k := FirstIndex(s, c);
    assert s[..k] == head[..k];
  }

  /** Splitting undoes joining at a separator the head does not contain,
      whatever the tail holds: the tail may contain further separators. */
  lemma SplitOnceJoin(head: string, tail: string, sep: char)
    requires sep !in head
    ensures SplitOnce(head + [sep] + tail, sep) == [head, tail]
  {
    var s := head + [sep] + tail;
    assert s[|head|] == sep;
    var k := FirstIndex(s, sep);
    assert k == |head|;
    assert s[..k] == head;
    assert s[k + 1..] == tail;
  }

  /** `s.replace(c, '')`: every occurrence of `c` deleted, every other
      character kept in order. */
  function Remove(s: string, c: char): string
  {
    if s == [] then []
    else if s[0] == c then Remove(s[1..], c)
    else [s[0]] + Remove(s[1..], c)
  }

  /** No `c` is left, and exactly the occurrences of `c` are gone. */
  lemma {:induction false} RemoveDeletes(s: string, c: char)
    ensures c !in Remove(s, c)
    ensures |Remove(s, c)| == |s| - Count(s, c)
  {
    if s != [] {
      RemoveDeletes(s[1..], c);
    }
  }

  /** Deleting `c` leaves the number of every other character unchanged. */
  lemma {:induction false} RemoveCount(s: string, c: char, d: char)
    requires d != c
    ensures Count(Remove(s, c), d) == Count(s, d)
  {
    if s != [] {
      RemoveCount(s[1..], c, d);
      if s[0] != c {
        assert ([s[0]] + Remove(s[1..], c))[1..] == Remove(s[1..], c);
      }
    }
  }

  lemma {:induction false} RemoveAppend(a: string, b: string, c: char)
    ensures Remove(a + b, c) == Remove(a, c) + Remove(b, c)
  {
    if a != [] {
      assert (a + b)[0] == a[0];
      assert (a + b)[1..] == a[1..] + b;
      RemoveAppend(a[1..], b, c);
    } else {
      assert a + b == b;
    }
  }

  /** Deleting `c` around a kept character `x` when the tail holds no `c`. */
  lemma RemoveAround(head: string, x: char, tail: string, c: char)
    requires x != c && c !in tail
    ensures Remove(head + [x] + tail, c) == Remove(head, c) + [x] + tail
  {
    assert head + [x] + tail == head + ([x] + tail);
    RemoveAppend(head, [x] + tail, c);
    RemoveAppend([x], tail, c);
    RemoveAbsent(tail, c);
    assert Remove([x], c) == [x];
  }

  /** Deleting `c` from `a + [c] + b` when `a` holds none: `a` stays, the
      `c` goes, and the deletion carries on in `b`. */
  lemma RemoveFirst(a: string, b: string, c: char)
    requires c !in a
    ensures Remove(a + [c] + b, c) == a + Remove(b, c)
  {
    assert a + [c] + b == a + ([c] + b);
    RemoveAppend(a, [c] + b, c);
    RemoveAbsent(a, c);
    assert ([c] + b)[1..] == b;
  }

  lemma {:induction false} RemoveAbsent(s: string, c: char)
    requires c !in s
    ensures Remove(s, c) == s
  {
    if s != [] {
      assert s == [s[0]] + s[1..];
      RemoveAbsent(s[1..], c);
    }
  }

  /** `s.replace(from, to)` for single characters: the same length, every
      `from` turned into `to` and every other character untouched. */
  function Replace(s: string, from: char, to: char): (r: string)
    ensures |r| == |s|
    ensures forall i :: 0 <= i < |s| ==> r[i] == (if s[i] == from then to else s[i])
  {
    if s == [] then []
    else [if s[0] == from then to else s[0]] + Replace(s[1..], from, to)
  }

  lemma {:induction false} CountReplace(s: string, from: char, to: char)
    requires from != to
    ensures Count(Replace(s, from, to), to) == Count(s, from) + Count(s, to)
    ensures Count(Replace(s, from, to), from) == 0
  {
    if s != [] {
      var r := Replace(s, from, to);
      assert r[1..] == Replace(s[1..], from, to);
      CountReplace(s[1..], from, to);
    }
  }
}
