/** The Python string operations the toolkit relies on, written out so that
    their meaning is explicit: `str.split` on one character, `str.join`,
    `str.startswith`, the substring test `in`, `str.replace` (leftmost,
    non-overlapping), `str.find`, and `str(n)` for a natural number. */
module Text {
  import opened Outcomes

  /** `sub` occurs in `s` starting at index `i`. */
  predicate OccursAt(s: string, sub: string, i: nat)
  {
    i + |sub| <= |s| && s[i..i + |sub|] == sub
  }

  /** Python's `sub in s` on strings. */
  predicate Contains(s: string, sub: string)
  {
    exists i: nat | i <= |s| :: OccursAt(s, sub, i)
  }

  /** Python's `s.startswith(p)`. */
  predicate StartsWith(s: string, p: string)
  {
    |p| <= |s| && s[..|p|] == p
  }

  /** Python's `s.startswith(tuple(prefixes))`: false for an empty tuple. */
  predicate StartsWithAny(s: string, prefixes: seq<string>)
  {
    exists p | p in prefixes :: StartsWith(s, p)
  }

  predicate IsDigitChar(c: char)
  {
    '0' <= c <= '9'
  }

  predicate AllDigits(s: string)
  {
    forall k | 0 <= k < |s| :: IsDigitChar(s[k])
  }

  /** A search for the regular expression `\d\d` succeeds: two consecutive
      ASCII digits. */
  predicate HasTwoDigits(s: string)
  {
    exists i | 0 <= i < |s| - 1 :: IsDigitChar(s[i]) && IsDigitChar(s[i + 1])
  }

  /** `str.find` from index `i` on: the first index at or after `i` where `sub` occurs. */
  function FindFrom(s: string, sub: string, i: nat): (r: Option<nat>)
    ensures r.Some? ==> i <= r.value && OccursAt(s, sub, r.value)
    ensures r.Some? ==> forall j :: i <= j < r.value ==> !OccursAt(s, sub, j)
    ensures r.None? ==> forall j :: i <= j ==> !OccursAt(s, sub, j)
    decreases |s| - i
  {
    if i + |sub| > |s| then None
    else if OccursAt(s, sub, i) then Some(i)
    else FindFrom(s, sub, i + 1)
  }

  // ---------------------------------------------------------------- split / join

  /** Python's `s.split(sep)` for a one-character separator: never empty,
      and an empty string gives `['']`. */
  function Split(s: string, sep: char): (parts: seq<string>)
    ensures |parts| >= 1
    ensures forall k | 0 <= k < |parts| :: sep !in parts[k]
    decreases |s|
  {
    if |s| == 0 then [""]
    else
      var rest := Split(s[1..], sep);
      if s[0] == sep then [""] + rest
      else [[s[0]] + rest[0]] + rest[1..]
  }

  /** Python's `sep.join(parts)`. */
  function Join(parts: seq<string>, sep: string): string
  {
    if |parts| == 0 then ""
    else if |parts| == 1 then parts[0]
    else parts[0] + sep + Join(parts[1..], sep)
  }

  /** `s.split(sep)[-1]`. */
  function LastSegment(s: string, sep: char): string
  {
    var parts := Split(s, sep);
    parts[|parts| - 1]
  }

  /** Joining what a split produced gives back the original string. */
  lemma {:induction false} JoinSplit(s: string, sep: char)
    ensures Join(Split(s, sep), [sep]) == s
    decreases |s|
  {
    if |s| > 0 {
      var rest := Split(s[1..], sep);
      JoinSplit(s[1..], sep);
      if s[0] == sep {
        assert Split(s, sep) == [""] + rest;
        assert ([""] + rest)[1..] == rest;
      } else if |rest| == 1 {
        assert Split(s, sep) == [[s[0]] + rest[0]];
      } else {
        var parts := [[s[0]] + rest[0]] + rest[1..];
        assert Split(s, sep) == parts;
        assert parts[1..] == rest[1..];
        assert Join(rest, [sep]) == rest[0] + [sep] + Join(rest[1..], [sep]);
      }
    }
  }

  /** Joining one more part appends the separator and that part. */
  lemma {:induction false} JoinSnoc(parts: seq<string>, last: string, sep: string)
    requires |parts| >= 1
    ensures Join(parts + [last], sep) == Join(parts, sep) + sep + last
    decreases |parts|
  {
    if |parts| > 1 {
      assert (parts + [last])[1..] == parts[1..] + [last];
      JoinSnoc(parts[1..], last, sep);
    }
  }

  /** A string without the separator splits into itself alone. */
  lemma {:induction false} SplitNoSeparator(s: string, sep: char)
    requires sep !in s
    ensures Split(s, sep) == [s]
    decreases |s|
  {
    if |s| > 0 {
      assert sep !in s[1..];
      SplitNoSeparator(s[1..], sep);
      assert [s[0]] + s[1..] == s;
    }
  }

  /** Splitting `a + sep + b`, where `a` has no separator, yields `a` first. */
  lemma {:induction false} SplitAtFirst(a: string, sep: char, b: string)
    requires sep !in a
    ensures Split(a + [sep] + b, sep) == [a] + Split(b, sep)
    decreases |a|
  {
    var s := a + [sep] + b;
    if |a| == 0 {
      assert s[1..] == b;
    } else {
      assert s[1..] == a[1..] + [sep] + b;
      assert sep !in a[1..];
      SplitAtFirst(a[1..], sep, b);
      assert [a[0]] + a[1..] == a;
    }
  }

  /** The segments a split produces, joined back, split into themselves. */
  lemma {:induction false} SplitJoin(parts: seq<string>, sep: char)
    requires |parts| >= 1
    requires forall k | 0 <= k < |parts| :: sep !in parts[k]
    ensures Split(Join(parts, [sep]), sep) == parts
    decreases |parts|
  {
    if |parts| == 1 {
      SplitNoSeparator(parts[0], sep);
    } else {
      SplitJoin(parts[1..], sep);
      SplitAtFirst(parts[0], sep, Join(parts[1..], [sep]));
      assert [parts[0]] + parts[1..] == parts;
    }
  }

  /** The last segment is a suffix of the string and has no separator in it. */
  lemma LastSegmentIsSuffix(s: string, sep: char)
    ensures sep !in LastSegment(s, sep)
    ensures |LastSegment(s, sep)| <= |s|
    ensures s[|s| - |LastSegment(s, sep)|..] == LastSegment(s, sep)
  {
    var parts := Split(s, sep);
    JoinSplit(s, sep);
    JoinEndsWithLast(parts, [sep]);
  }

  lemma {:induction false} JoinEndsWithLast(parts: seq<string>, sep: string)
    requires |parts| >= 1
    ensures var j := Join(parts, sep);
      |parts[|parts| - 1]| <= |j| && j[|j| - |parts[|parts| - 1]|..] == parts[|parts| - 1]
    decreases |parts|
  {
    if |parts| > 1 {
      JoinEndsWithLast(parts[1..], sep);
      assert parts[1..][|parts[1..]| - 1] == parts[|parts| - 1];
    }
  }

  /** The last segment of `p + sep + id`, where `id` has no separator, is `id`. */
  lemma {:induction false} LastSegmentAfterSeparator(p: string, sep: char, id: string)
    requires sep !in id
    ensures LastSegment(p + [sep] + id, sep) == id
    decreases |p|
  {
    var s := p + [sep] + id;
    if |p| == 0 {
      assert s[1..] == id;
      SplitNoSeparator(id, sep);
    } else {
      assert s[1..] == p[1..] + [sep] + id;
      LastSegmentAfterSeparator(p[1..], sep, id);
      assert s[1..][|p| - 1] == sep;
      SplitWithSeparator(s[1..], sep);
    }
  }

  /** A string holding the separator splits into at least two segments. */
  lemma {:induction false} SplitWithSeparator(s: string, sep: char)
    requires sep in s
    ensures |Split(s, sep)| >= 2
    decreases |s|
  {
    if s[0] != sep {
      assert sep in s[1..];
      SplitWithSeparator(s[1..], sep);
    }
  }

  // ---------------------------------------------------------------- replace

  /** Python's `s.replace(pat, rep)`: every leftmost, non-overlapping
      occurrence of `pat`, scanning left to right, is replaced by `rep`. */
  function Replace(s: string, pat: string, rep: string): string
    requires |pat| > 0
    decreases |s|
  {
    if |s| < |pat| then s
    else if s[..|pat|] == pat then rep + Replace(s[|pat|..], pat, rep)
    else [s[0]] + Replace(s[1..], pat, rep)
  }

  lemma ContainsTail(s: string, sub: string)
    requires |s| > 0 && Contains(s[1..], sub)
    ensures Contains(s, sub)
  {
    var i: nat :| i <= |s[1..]| && OccursAt(s[1..], sub, i);
    assert s[i + 1..i + 1 + |sub|] == s[1..][i..i + |sub|];
    assert OccursAt(s, sub, i + 1);
  }

  /** A string in which `pat` does not occur is left as it is. */
  lemma {:induction false} ReplaceAbsent(s: string, pat: string, rep: string)
    requires |pat| > 0 && !Contains(s, pat)
    ensures Replace(s, pat, rep) == s
    decreases |s|
  {
    if |s| >= |pat| {
      assert !OccursAt(s, pat, 0);
      if Contains(s[1..], pat) {
        ContainsTail(s, pat);
      }
      ReplaceAbsent(s[1..], pat, rep);
    }
  }

  /** The placeholder alone is replaced by the value alone. */
  lemma ReplaceWhole(pat: string, rep: string)
    requires |pat| > 0
    ensures Replace(pat, pat, rep) == rep
  {
    assert pat[..|pat|] == pat;
    assert pat[|pat|..] == "";
  }

  /** `pat` cannot occur in `s` when one of its characters is missing from `s`. */
  lemma AbsentByChar(s: string, pat: string, k: nat)
    requires k < |pat| && pat[k] !in s
    ensures !Contains(s, pat)
  {
    forall i: nat | i <= |s| ensures !OccursAt(s, pat, i) {
      if i + |pat| <= |s| {
        assert s[i..i + |pat|][k] == s[i + k];
      }
    }
  }

  /** No text starting with a non-digit occurs in a string of digits. */
  lemma AbsentFromDigits(s: string, pat: string)
    requires AllDigits(s) && |pat| > 0 && !IsDigitChar(pat[0])
    ensures !Contains(s, pat)
  {
    forall i: nat | i <= |s| ensures !OccursAt(s, pat, i) {
      if i + |pat| <= |s| {
        assert s[i..i + |pat|][0] == s[i];
      }
    }
  }

  /** A longer text never occurs in a shorter one. */
  lemma AbsentWhenLonger(s: string, pat: string)
    requires |pat| > |s|
    ensures !Contains(s, pat)
  {
  }

  lemma ReplaceShort(s: string, pat: string, rep: string)
    requires 0 < |pat| && |s| < |pat|
    ensures Replace(s, pat, rep) == s
  {
  }

  lemma ReplaceHit(s: string, pat: string, rep: string)
    requires 0 < |pat| <= |s| && s[..|pat|] == pat
    ensures Replace(s, pat, rep) == rep + Replace(s[|pat|..], pat, rep)
  {
  }

  lemma ReplaceMiss(s: string, pat: string, rep: string)
    requires 0 < |pat| <= |s| && s[..|pat|] != pat
    ensures Replace(s, pat, rep) == [s[0]] + Replace(s[1..], pat, rep)
  {
  }

  /** Replacement never reaches across a character that `pat` does not hold:
      the two sides are replaced independently. */
  lemma {:induction false} ReplaceAroundDelimiter(a: string, d: char, b: string, pat: string, rep: string)
    requires |pat| > 0 && d !in pat
    ensures Replace(a + [d] + b, pat, rep) == Replace(a, pat, rep) + [d] + Replace(b, pat, rep)
    decreases |a|, 1
  {
    var s := a + [d] + b;
    if |s| < |pat| {
      ReplaceShort(s, pat, rep);
      ReplaceShort(a, pat, rep);
      ReplaceShort(b, pat, rep);
    } else if |a| == 0 {
      assert s[..|pat|][0] == d;
      assert s[1..] == b;
      ReplaceMiss(s, pat, rep);
      ReplaceShort(a, pat, rep);
    } else if |pat| > |a| {
      AroundShortLeft(a, d, b, pat, rep);
    } else if s[..|pat|] == pat {
      AroundHit(a, d, b, pat, rep);
    } else {
      AroundMiss(a, d, b, pat, rep);
    }
  }

  lemma {:induction false} AroundShortLeft(a: string, d: char, b: string, pat: string, rep: string)
    requires |pat| > 0 && d !in pat && 0 < |a| < |pat| <= |a| + 1 + |b|
    ensures Replace(a + [d] + b, pat, rep) == Replace(a, pat, rep) + [d] + Replace(b, pat, rep)
    decreases |a|, 0
  {
    var s := a + [d] + b;
    assert s[..|pat|][|a|] == d;
    assert s[1..] == a[1..] + [d] + b;
    ReplaceMiss(s, pat, rep);
    ReplaceAroundDelimiter(a[1..], d, b, pat, rep);
    ReplaceShort(a, pat, rep);
    ReplaceShort(a[1..], pat, rep);
    assert [a[0]] + a[1..] == a;
  }

  lemma {:induction false} AroundHit(a: string, d: char, b: string, pat: string, rep: string)
    requires |pat| > 0 && d !in pat && |pat| <= |a| && a[..|pat|] == pat
    ensures Replace(a + [d] + b, pat, rep) == Replace(a, pat, rep) + [d] + Replace(b, pat, rep)
    decreases |a|, 0
  {
    var s := a + [d] + b;
    assert s[..|pat|] == a[..|pat|];
    assert s[|pat|..] == a[|pat|..] + [d] + b;
    ReplaceHit(s, pat, rep);
    ReplaceHit(a, pat, rep);
    ReplaceAroundDelimiter(a[|pat|..], d, b, pat, rep);
  }

  lemma {:induction false} AroundMiss(a: string, d: char, b: string, pat: string, rep: string)
    requires |pat| > 0 && d !in pat && |pat| <= |a| && a[..|pat|] != pat
    ensures Replace(a + [d] + b, pat, rep) == Replace(a, pat, rep) + [d] + Replace(b, pat, rep)
    decreases |a|, 0
  {
    var s := a + [d] + b;
    assert s[..|pat|] == a[..|pat|];
    assert s[1..] == a[1..] + [d] + b;
    ReplaceMiss(s, pat, rep);
    ReplaceMiss(a, pat, rep);
    ReplaceAroundDelimiter(a[1..], d, b, pat, rep);
  }

  /** Each field of a delimiter-separated text, replaced on its own. */
  function ReplaceEach(fields: seq<string>, pat: string, rep: string): (r: seq<string>)
    requires |pat| > 0
    ensures |r| == |fields|
    ensures forall k | 0 <= k < |fields| :: r[k] == Replace(fields[k], pat, rep)
  {
    if |fields| == 0 then [] else [Replace(fields[0], pat, rep)] + ReplaceEach(fields[1..], pat, rep)
  }

  /** In a text made of fields separated by a delimiter that `pat` does not
      contain, `str.replace` acts on every field separately. */
  lemma {:induction false} ReplaceJoin(fields: seq<string>, d: char, pat: string, rep: string)
    requires |pat| > 0 && d !in pat
    ensures Replace(Join(fields, [d]), pat, rep) == Join(ReplaceEach(fields, pat, rep), [d])
    decreases |fields|
  {
    if |fields| > 1 {
      ReplaceJoin(fields[1..], d, pat, rep);
      ReplaceAroundDelimiter(fields[0], d, Join(fields[1..], [d]), pat, rep);
      assert ReplaceEach(fields, pat, rep)[1..] == ReplaceEach(fields[1..], pat, rep);
    }
  }

  // ---------------------------------------------------------------- str(n)

  function DigitChar(d: nat): (c: char)
    requires d < 10
    ensures IsDigitChar(c)
  {
    (d + '0' as int) as char
  }

  /** Python's `str(n)` for a natural number: decimal digits, no leading zero. */
  function Decimal(n: nat): (s: string)
    ensures |s| >= 1 && AllDigits(s)
    ensures n > 0 ==> s[0] != '0'
    decreases n
  {
    if n < 10 then [DigitChar(n)] else Decimal(n / 10) + [DigitChar(n % 10)]
  }

  /** The number a string of decimal digits denotes. */
  function DecimalValue(s: string): nat
    requires AllDigits(s)
  {
    if |s| == 0 then 0
    else 10 * DecimalValue(s[..|s| - 1]) + (s[|s| - 1] as int - '0' as int)
  }

  /** `str(n)` can be read back as `n`: it is a faithful decimal rendering. */
  lemma {:induction false} DecimalRoundTrip(n: nat)
    ensures DecimalValue(Decimal(n)) == n
    decreases n
  {
    if n >= 10 {
      var s := Decimal(n);
      assert s[..|s| - 1] == Decimal(n / 10);
      DecimalRoundTrip(n / 10);
    }
  }
}
