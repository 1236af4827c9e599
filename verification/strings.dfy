/** Python string primitives used by the scripts, over `seq<char>`. */
module Strings {
  import opened Outcomes

  predicate StartsWith(s: string, prefix: string)
  {
    |prefix| <= |s| && s[..|prefix|] == prefix
  }

  predicate EndsWith(s: string, suffix: string)
  {
    |suffix| <= |s| && s[|s| - |suffix|..] == suffix
  }

  /** `pat` occurs in `s` starting at index `i`. */
  predicate OccursAt(s: string, pat: string, i: int)
  {
    0 <= i && i + |pat| <= |s| && s[i..i + |pat|] == pat
  }

  /** Python's `pat in s`. */
  predicate Contains(s: string, pat: string)
  {
    exists i :: 0 <= i <= |s| && OccursAt(s, pat, i)
  }

  /** The first occurrence of `pat` at or after index `from` (`str.find`). */
  function FindFrom(s: string, pat: string, from: nat): (r: Option<nat>)
    decreases |s| - from
    ensures r.Some? ==> from <= r.value && OccursAt(s, pat, r.value)
    ensures r.Some? ==> forall j :: from <= j < r.value ==> !OccursAt(s, pat, j)
    ensures r.None? ==> forall j :: from <= j ==> !OccursAt(s, pat, j)
  {
    if from + |pat| > |s| then None
    else if OccursAt(s, pat, from) then Some(from)
    else FindFrom(s, pat, from + 1)
  }

  /** Number of occurrences of the character `c` in `s`. */
  function CountChar(s: string, c: char): nat
  {
    if |s| == 0 then 0 else (if s[0] == c then 1 else 0) + CountChar(s[1..], c)
  }

  /** Python's `s.split(sep)` for a one-character separator: the fields
      between separators, empty fields included. */
  function Split(s: string, sep: char): (r: seq<string>)
    ensures |r| == CountChar(s, sep) + 1
    ensures forall k :: 0 <= k < |r| ==> sep !in r[k]
  {
    if |s| == 0 then [""]
    else
      var rest := Split(s[1..], sep);
      if s[0] == sep then [""] + rest
      else [[s[0]] + rest[0]] + rest[1..]
  }

  /** Python's `sep.join(parts)`. */
  function Join(parts: seq<string>, sep: char): string
    requires |parts| >= 1
  {
    if |parts| == 1 then parts[0] else parts[0] + [sep] + Join(parts[1..], sep)
  }

  /** Joining the fields of a split gives back the original string. */
  lemma {:induction false} JoinSplit(s: string, sep: char)
    ensures Join(Split(s, sep), sep) == s
  {
    if |s| > 0 {
      var rest := Split(s[1..], sep);
      JoinSplit(s[1..], sep);
      if s[0] != sep {
        if |rest| == 1 {
          assert Split(s, sep) == [[s[0]] + rest[0]];
        } else {
          var r := Split(s, sep);
          assert r[1..] == rest[1..];
          assert Join(r, sep) == [s[0]] + rest[0] + [sep] + Join(rest[1..], sep);
        }
      }
    }
  }

  /** Splitting a join of separator-free fields gives back the fields. */
  lemma {:induction false} SplitJoin(parts: seq<string>, sep: char)
    requires |parts| >= 1
    requires forall k :: 0 <= k < |parts| ==> sep !in parts[k]
    ensures Split(Join(parts, sep), sep) == parts
  {
    if |parts| == 1 {
      SplitNoSep(parts[0], sep);
    } else {
      SplitJoin(parts[1..], sep);
      SplitAfterField(parts[0], Join(parts[1..], sep), sep);
      assert [parts[0]] + parts[1..] == parts;
    }
  }

  /** A string without the separator is a single field. */
  lemma {:induction false} SplitNoSep(s: string, sep: char)
    requires sep !in s
    ensures Split(s, sep) == [s]
  {
    if |s| > 0 {
      assert s[0] in s;
      SplitNoSep(s[1..], sep);
      assert [s[0]] + s[1..] == s;
    }
  }

  lemma {:induction false} CountCharPositive(s: string, c: char)
    requires CountChar(s, c) > 0
    ensures c in s
  {
    if s[0] != c {
      CountCharPositive(s[1..], c);
    }
  }

  /** Splitting `field + sep + rest` yields `field` followed by the fields of `rest`. */
  lemma {:induction false} SplitAfterField(field: string, rest: string, sep: char)
    requires sep !in field
    ensures Split(field + [sep] + rest, sep) == [field] + Split(rest, sep)
  {
    if |field| == 0 {
      assert field + [sep] + rest == [sep] + rest;
      assert ([sep] + rest)[1..] == rest;
    } else {
      var s := field + [sep] + rest;
      assert s[1..] == field[1..] + [sep] + rest;
      SplitAfterField(field[1..], rest, sep);
      assert [field[0]] + field[1..] == field;
    }
  }

  /** `field` is the third `sep`-separated field of `s`: two separator-free
      fields come before it and the rest is empty or starts at a separator. */
  ghost predicate ThirdFieldIs(s: string, sep: char, field: string)
  {
    exists a, b, tail :: sep !in a && sep !in b && (tail == [] || tail[0] == sep) &&
      s == ThreeFields(a, b, field, tail, sep)
  }

  /** `a + sep + b + sep + c`, followed by `tail`. */
  function ThreeFields(a: string, b: string, c: string, tail: string, sep: char): string
  {
    a + [sep] + b + [sep] + c + tail
  }

  /** The tail of a join after its third part. */
  function JoinTail(parts: seq<string>, sep: char): string
    requires |parts| >= 3
  {
    if |parts| == 3 then [] else [sep] + Join(parts[3..], sep)
  }

  lemma JoinFirstThree(parts: seq<string>, sep: char)
    requires |parts| >= 3
    ensures Join(parts, sep) == parts[0] + [sep] + parts[1] + [sep] + parts[2] + JoinTail(parts, sep)
  {
    var p1, p2 := parts[1..], parts[2..];
    assert p1[1..] == p2;
    assert p2[1..] == parts[3..];
    assert Join(p2, sep) == parts[2] + JoinTail(parts, sep);
    assert Join(p1, sep) == parts[1] + [sep] + (parts[2] + JoinTail(parts, sep));
  }

  /** The third part of a join is its third field when the first two
      parts hold no separator. */
  lemma ThirdFieldOfJoin(parts: seq<string>, sep: char)
    requires |parts| >= 3 && sep !in parts[0] && sep !in parts[1]
    ensures ThirdFieldIs(Join(parts, sep), sep, parts[2])
  {
    JoinFirstThree(parts, sep);
    var a, b, tail := parts[0], parts[1], JoinTail(parts, sep);
    assert Join(parts, sep) == ThreeFields(a, b, parts[2], tail, sep);
  }

  /** A string with three or more fields has its third field where the
      split puts it. */
  lemma ThirdFieldOfSplit(s: string, sep: char)
    requires CountChar(s, sep) >= 2
    ensures ThirdFieldIs(s, sep, Split(s, sep)[2])
  {
    var f := Split(s, sep);
    JoinSplit(s, sep);
    ThirdFieldOfJoin(f, sep);
  }

  lemma {:induction false} CountCharSplit(s: string, c: char, k: nat)
    requires k < |s| && s[k] == c
    ensures CountChar(s, c) > 0
  {
    if k > 0 && s[0] != c {
      CountCharSplit(s[1..], c, k - 1);
    }
  }

  /** The last field of `s.split(sep)`: everything after the last separator. */
  function LastField(s: string, sep: char): (r: string)
    ensures sep !in r
    ensures EndsWith(s, r)
    ensures |r| < |s| ==> s[|s| - |r| - 1] == sep
  {
    var parts := Split(s, sep);
    LastFieldOfSplit(s, sep);
    parts[|parts| - 1]
  }

  lemma {:induction false} LastFieldOfSplit(s: string, sep: char)
    ensures var parts := Split(s, sep);
      EndsWith(s, parts[|parts| - 1]) &&
      (|parts[|parts| - 1]| < |s| ==> s[|s| - |parts[|parts| - 1]| - 1] == sep)
  {
    if |s| > 0 {
      LastFieldOfSplit(s[1..], sep);
      var rest := Split(s[1..], sep);
      var parts := Split(s, sep);
      var last := rest[|rest| - 1];
      if s[0] == sep || |rest| > 1 {
        assert parts[|parts| - 1] == last;
        assert s[|s| - |last|..] == s[1..][|s[1..]| - |last|..];
        if |last| == |s[1..]| && s[0] != sep {
          CountCharPositive(s[1..], sep);
          assert false;
        }
      } else {
        assert sep !in s[1..] by {
          if sep in s[1..] {
            var k :| 0 <= k < |s[1..]| && s[1..][k] == sep;
            CountCharSplit(s[1..], sep, k);
          }
        }
        SplitNoSep(s[1..], sep);
        assert [s[0]] + s[1..] == s;
      }
    }
  }
}
