/** The Python string operations the script applies to file names:
    `s.split(pat)[0]`, `s.split(c)`, `s.replace(pat, "")` and `int(s)`.
 */
module Text {
  import opened Outcomes

  /** `pat` occurs in `s` starting at position `i`. */
  predicate OccursAt(s: string, pat: string, i: nat) {
    i + |pat| <= |s| && s[i..i + |pat|] == pat
  }

  /** `s.split(pat)[0]`: the text before the first occurrence of `pat`, or the
      whole of `s` when `pat` does not occur. Python rejects an empty
      separator; the script only splits on ".png" and ".csv". */
  function BeforeFirst(s: string, pat: string): (r: string)
    requires |pat| > 0
    ensures r <= s
    ensures forall i :: 0 <= i < |r| ==> !OccursAt(s, pat, i)
    ensures r == s || OccursAt(s, pat, |r|)
  {
    if |s| < |pat| then s
    else if s[..|pat|] == pat then []
    else
      var r' := BeforeFirst(s[1..], pat);
      assert forall i :: 0 <= i < |r'| + 1 ==> !OccursAt(s, pat, i) by {
        forall i | 0 <= i < |r'| + 1 ensures !OccursAt(s, pat, i) {
          if i > 0 && i + |pat| <= |s| {
            assert !OccursAt(s[1..], pat, i - 1);
            assert s[1..][i - 1..i - 1 + |pat|] == s[i..i + |pat|];
          }
        }
      }
      assert r' != s[1..] ==> s[1..][|r'|..|r'| + |pat|] == s[|r'| + 1..|r'| + 1 + |pat|];
      [s[0]] + r'
  }

  /** Cutting at a separator that is absent from `s` and appended to it
      returns `s` unchanged. */
  lemma {:induction false} BeforeFirstAppended(s: string, pat: string)
    requires |pat| > 0
    requires pat[0] !in s
    ensures BeforeFirst(s + pat, pat) == s
  {
    var t := s + pat;
    if |s| == 0 {
      assert t == pat;
    } else {
      assert t[0] == s[0];
      assert t[..|pat|] != pat by {
        assert t[..|pat|][0] == s[0] != pat[0];
      }
      assert t[1..] == s[1..] + pat;
      BeforeFirstAppended(s[1..], pat);
    }
  }

  /** `parts` joined with `sep` between neighbours, the inverse of `Split`. */
  function Join(parts: seq<string>, sep: char): string
    requires |parts| > 0
  {
    if |parts| == 1 then parts[0] else parts[0] + [sep] + Join(parts[1..], sep)
  }

  /** `s.split(sep)` for a one-character separator: the maximal pieces of `s`
      free of `sep`, one more than the number of separators in `s`. */
  function Split(s: string, sep: char): (parts: seq<string>)
    ensures |parts| > 0
    ensures forall k :: 0 <= k < |parts| ==> sep !in parts[k]
    ensures Join(parts, sep) == s
    ensures |parts| == 1 <==> sep !in s
  {
    if |s| == 0 then [[]]
    else if s[0] == sep then [[]] + Split(s[1..], sep)
    else
      var rest := Split(s[1..], sep);
      var parts := [[s[0]] + rest[0]] + rest[1..];
      assert parts[1..] == rest[1..];
      assert Join(parts, sep) == [s[0]] + Join(rest, sep);
      assert sep in s <==> sep in s[1..] by {
        assert s == [s[0]] + s[1..];
      }
      parts
  }

  /** Splitting a join of separator-free pieces gives the pieces back. */
  lemma {:induction false} SplitJoin(parts: seq<string>, sep: char)
    requires |parts| > 0
    requires forall k :: 0 <= k < |parts| ==> sep !in parts[k]
    ensures Split(Join(parts, sep), sep) == parts
  {
    if |parts| == 1 {
      SplitFree(parts[0], sep);
    } else {
      SplitJoin(parts[1..], sep);
      SplitPiece(parts[0], Join(parts[1..], sep), sep);
      assert [parts[0]] + parts[1..] == parts;
    }
  }

  /** A separator-free string splits into itself. */
  lemma {:induction false} SplitFree(s: string, sep: char)
    requires sep !in s
    ensures Split(s, sep) == [s]
  {
    if |s| > 0 {
      SplitFree(s[1..], sep);
      assert [s[0]] + s[1..] == s;
    }
  }

  /** A separator-free piece followed by a separator starts a new part. */
  lemma {:induction false} SplitPiece(a: string, b: string, sep: char)
    requires sep !in a
    ensures Split(a + [sep] + b, sep) == [a] + Split(b, sep)
  {
    var s := a + [sep] + b;
    if |a| == 0 {
      assert s == [sep] + b;
      assert s[1..] == b;
    } else {
      assert s[0] == a[0];
      assert s[1..] == a[1..] + [sep] + b;
      SplitPiece(a[1..], b, sep);
      var rest := Split(s[1..], sep);
      assert rest[0] == a[1..];
      assert [a[0]] + a[1..] == a;
    }
  }

  /** `r` is `s` with some of its characters deleted: the characters of `r`
      occur in `s` in the same order. */
  predicate Subsequence(r: string, s: string)
    decreases |s|
  {
    if |r| == 0 then true
    else if |s| == 0 then false
    else (r[0] == s[0] && Subsequence(r[1..], s[1..])) || Subsequence(r, s[1..])
  }

  /** Deleting a prefix of `s` first still leaves a subsequence of `s`. */
  lemma {:induction false} SubsequenceDrop(r: string, s: string, n: nat)
    requires n <= |s|
    requires Subsequence(r, s[n..])
    ensures Subsequence(r, s)
  {
    if n > 0 {
      assert s[1..][n - 1..] == s[n..];
      SubsequenceDrop(r, s[1..], n - 1);
    }
  }

  /** `s.replace(pat, "")`: every occurrence of `pat` found scanning left to
      right is deleted; the result is not scanned again. */
  function RemoveAll(s: string, pat: string): (r: string)
    requires |pat| > 0
    ensures |r| <= |s|
    ensures Subsequence(r, s)
    ensures (forall i :: 0 <= i < |s| ==> !OccursAt(s, pat, i)) ==> r == s
    ensures |pat| == 1 ==> pat[0] !in r
    decreases |s|
  {
    if |s| == 0 then []
    else if OccursAt(s, pat, 0) then
      var r := RemoveAll(s[|pat|..], pat);
      SubsequenceDrop(r, s, |pat|);
      r
    else
      var r := RemoveAll(s[1..], pat);
      assert ([s[0]] + r)[1..] == r;
      assert (forall i :: 0 <= i < |s| ==> !OccursAt(s, pat, i)) ==>
               forall i :: 0 <= i < |s[1..]| ==> !OccursAt(s[1..], pat, i) by {
        forall i | 0 <= i < |s[1..]| && OccursAt(s[1..], pat, i) ensures OccursAt(s, pat, i + 1) {
          assert s[1..][i..i + |pat|] == s[i + 1..i + 1 + |pat|];
        }
      }
      assert |pat| == 1 ==> s[..1] == [s[0]] && pat == [pat[0]];
      [s[0]] + r
  }

  /** A leading occurrence of `pat` is deleted. */
  lemma RemoveAllLeading(pat: string, t: string)
    requires |pat| > 0
    ensures RemoveAll(pat + t, pat) == RemoveAll(t, pat)
  {
    assert (pat + t)[..|pat|] == pat;
    assert (pat + t)[|pat|..] == t;
  }

  /** Text before the first occurrence of `pat` is kept as it is, and the
      deleting goes on after it. */
  lemma {:induction false} RemoveAllSkip(a: string, t: string, pat: string)
    requires |pat| > 0
    requires forall i :: 0 <= i < |a| ==> !OccursAt(a + t, pat, i)
    ensures RemoveAll(a + t, pat) == a + RemoveAll(t, pat)
  {
    if |a| > 0 {
      KeepFirst(a, t, pat);
      NoOccurrenceInRest(a, t, pat);
      RemoveAllSkip(a[1..], t, pat);
      PrefixStep(a, RemoveAll(a + t, pat), RemoveAll(a[1..] + t, pat), RemoveAll(t, pat));
    } else {
      assert a + t == t;
    }
  }

  /** Deleting a one-character pattern keeps every copy of every other
      character. */
  lemma {:induction false} RemoveCharKeepsOthers(s: string, pat: string, c: char)
    requires |pat| == 1 && c != pat[0]
    ensures multiset(RemoveAll(s, pat))[c] == multiset(s)[c]
  {
    if |s| > 0 {
      RemoveCharKeepsOthers(s[1..], pat, c);
      assert s == [s[0]] + s[1..];
      assert s[|pat|..] == s[1..];
      assert OccursAt(s, pat, 0) ==> s[0] == pat[0] by {
        if OccursAt(s, pat, 0) {
          assert s[..1][0] == s[0];
        }
      }
    }
  }

  /** `x` is `a[0]` then `y`, and `y` is the rest of `a` then `z`: so `x`
      is `a` then `z`. */
  lemma PrefixStep(a: string, x: string, y: string, z: string)
    requires |a| > 0 && x == [a[0]] + y && y == a[1..] + z
    ensures x == a + z
  {
    assert [a[0]] + (a[1..] + z) == a + z;
  }

  /** A first character that starts no occurrence is kept. */
  lemma KeepFirst(a: string, t: string, pat: string)
    requires |pat| > 0 && |a| > 0
    requires !OccursAt(a + t, pat, 0)
    ensures RemoveAll(a + t, pat) == [a[0]] + RemoveAll(a[1..] + t, pat)
  {
    assert (a + t)[1..] == a[1..] + t;
  }

  /** Dropping the first character of `a` keeps `a` free of occurrences. */
  lemma NoOccurrenceInRest(a: string, t: string, pat: string)
    requires |pat| > 0 && |a| > 0
    requires forall i :: 0 <= i < |a| ==> !OccursAt(a + t, pat, i)
    ensures forall i :: 0 <= i < |a[1..]| ==> !OccursAt(a[1..] + t, pat, i)
  {
    var s, rest := a + t, a[1..] + t;
    assert s[1..] == rest;
    forall i | 0 <= i < |a[1..]| ensures !OccursAt(rest, pat, i) {
      ShiftOccurrence(s, pat, i);
    }
  }

  /** An occurrence in `s[1..]` is an occurrence in `s`, one place later. */
  lemma ShiftOccurrence(s: string, pat: string, i: nat)
    requires |s| > 0
    ensures OccursAt(s[1..], pat, i) ==> OccursAt(s, pat, i + 1)
  {
    if i + |pat| <= |s[1..]| {
      assert s[1..][i..i + |pat|] == s[i + 1..i + 1 + |pat|];
    }
  }

  /** Text that cannot start an occurrence of `pat` is left unchanged. */
  lemma {:induction false} RemoveAllAbsent(s: string, pat: string)
    requires |pat| > 0
    requires pat[0] !in s
    ensures RemoveAll(s, pat) == s
  {
    if |s| > 0 {
      assert !OccursAt(s, pat, 0) by {
        if |pat| <= |s| {
          assert s[..|pat|][0] == s[0];
        }
      }
      RemoveAllAbsent(s[1..], pat);
      assert [s[0]] + s[1..] == s;
    }
  }

  predicate IsDigit(c: char) {
    '0' <= c <= '9'
  }

  predicate AllDigits(s: string) {
    forall k :: 0 <= k < |s| ==> IsDigit(s[k])
  }

  /** The value of a string of decimal digits, most significant first. */
  function DigitsValue(s: string): nat
    requires AllDigits(s)
  {
    if |s| == 0 then 0
    else DigitsValue(s[..|s| - 1]) * 10 + (s[|s| - 1] as int - '0' as int)
  }

  /** `int(s)` on a string: an optional sign followed by at least one decimal
      digit; anything else is Python's ValueError, here `None`. */
  function ParseInt(s: string): (r: Option<int>)
    ensures r.Some? <==>
              && |s| > 0
              && (IsDigit(s[0]) || ((s[0] == '+' || s[0] == '-') && |s| > 1))
              && forall k :: 0 < k < |s| ==> IsDigit(s[k])
    ensures r.Some? && s[0] != '-' ==> r.value >= 0
    ensures r.Some? && s[0] == '-' ==> r.value <= 0
    ensures r.Some? && IsDigit(s[0]) ==> r.value == DigitsValue(s)
    ensures r.Some? && s[0] == '+' ==> AllDigits(s[1..]) && r.value == DigitsValue(s[1..])
    ensures r.Some? && s[0] == '-' ==> AllDigits(s[1..]) && r.value + DigitsValue(s[1..]) == 0
  {
    if |s| == 0 then None
    else if s[0] == '+' || s[0] == '-' then
      if |s| > 1 && AllDigits(s[1..]) then
        var n: int := DigitsValue(s[1..]);
        Some(if s[0] == '-' then -n else n)
      else None
    else if AllDigits(s) then Some(DigitsValue(s))
    else None
  }

  /** The shortest decimal numeral of `n`. */
  function ShowNat(n: nat): (s: string)
    ensures |s| > 0 && AllDigits(s)
    ensures DigitsValue(s) == n
  {
    var d := ['0' + (n % 10) as char];
    if n < 10 then d
    else
      var s := ShowNat(n / 10) + d;
      assert s[..|s| - 1] == ShowNat(n / 10);
      s
  }

  /** `k` zero digits. */
  function Zeros(k: nat): (s: string)
    ensures |s| == k && AllDigits(s)
    ensures forall i :: 0 <= i < k ==> s[i] == '0'
  {
    if k == 0 then [] else Zeros(k - 1) + ['0']
  }

  /** Leading zeros do not change the value of a string of digits. */
  lemma {:induction false} LeadingZerosValue(k: nat, s: string)
    requires AllDigits(s)
    ensures AllDigits(Zeros(k) + s)
    ensures DigitsValue(Zeros(k) + s) == DigitsValue(s)
  {
    var t := Zeros(k) + s;
    if |s| == 0 {
      assert t == Zeros(k);
      if k > 0 {
        LeadingZerosValue(k - 1, []);
        assert Zeros(k)[..k - 1] == Zeros(k - 1) + [];
      }
    } else {
      assert t[..|t| - 1] == Zeros(k) + s[..|s| - 1];
      assert t[|t| - 1] == s[|s| - 1];
      LeadingZerosValue(k, s[..|s| - 1]);
    }
  }

  /** The decimal numeral of `n` after `zeros` leading zeros, with a '-' in
      front for a negative `n`: a zero-padded file-name field such as the
      "03" of "P03", or `str(n)` itself when `zeros` is 0. `int` reads every
      such numeral back as `n`. */
  function Padded(n: int, zeros: nat): (s: string)
    ensures ParseInt(s) == Some(n)
    ensures forall k :: 0 <= k < |s| ==> s[k] == '-' || IsDigit(s[k])
  {
    var digits := Zeros(zeros) + ShowNat(if n < 0 then -n else n);
    LeadingZerosValue(zeros, ShowNat(if n < 0 then -n else n));
    if n < 0 then
      var s := "-" + digits;
      assert s[1..] == digits;
      s
    else digits
  }

  /** A character that is neither a digit, nor '-', nor in `tag` does not
      occur in `tag` followed by a numeral. */
  lemma TaggedNumeralLacks(tag: string, n: int, zeros: nat, c: char)
    requires c !in tag && c != '-' && !IsDigit(c)
    ensures c !in tag + Padded(n, zeros)
  {
    var s := tag + Padded(n, zeros);
    forall k | 0 <= k < |s| ensures s[k] != c {
      if k >= |tag| {
        assert s[k] == Padded(n, zeros)[k - |tag|];
      }
    }
  }

  /** A tag free of "_" and "." followed by a numeral is free of both, so it
      is one piece of a file-name stem. */
  lemma TaggedNumeralPlain(tag: string, n: int, zeros: nat)
    requires '_' !in tag && '.' !in tag
    ensures '_' !in tag + Padded(n, zeros) && '.' !in tag + Padded(n, zeros)
  {
    TaggedNumeralLacks(tag, n, zeros, '_');
    TaggedNumeralLacks(tag, n, zeros, '.');
  }

  /** Deleting `tag` from `tag` followed by a numeral leaves the numeral,
      which reads back as the number. */
  lemma TaggedNumeralReads(tag: string, n: int, zeros: nat)
    requires |tag| > 0 && tag[0] != '-' && !IsDigit(tag[0])
    ensures ParseInt(RemoveAll(tag + Padded(n, zeros), tag)) == Some(n)
  {
    RemoveAllLeading(tag, Padded(n, zeros));
    RemoveAllAbsent(Padded(n, zeros), tag);
  }

  /** A stem made of `first`, `sep`, `second` and a `tail` that is empty or
      starts a further piece, followed by an extension whose first character
      occurs nowhere in the stem, is cut into pieces of which the first two
      are `first` and `second`. */
  lemma StemPieces(first: string, second: string, tail: string, sep: char, ext: string)
    requires |ext| > 0 && ext[0] != sep
    requires sep !in first && sep !in second
    requires tail == [] || tail[0] == sep
    requires ext[0] !in first && ext[0] !in second && ext[0] !in tail
    ensures var parts := Split(BeforeFirst(first + [sep] + second + tail + ext, ext), sep);
            |parts| >= 2 && parts[0] == first && parts[1] == second
  {
    var stem := first + [sep] + second + tail;
    ConcatLacks(first, second, tail, sep, ext[0]);
    BeforeFirstAppended(stem, ext);
    LeadingPieces(first, second, tail, sep);
  }

  /** A character absent from three strings and different from `sep` is
      absent from their join. */
  lemma ConcatLacks(first: string, second: string, tail: string, sep: char, c: char)
    requires c != sep && c !in first && c !in second && c !in tail
    ensures c !in first + [sep] + second + tail
  {
    var stem := first + [sep] + second + tail;
    forall k | 0 <= k < |stem| ensures stem[k] != c {
      if k < |first| {
        assert stem[k] == first[k];
      } else if |first| < k < |first| + 1 + |second| {
        assert stem[k] == second[k - |first| - 1];
      } else if k >= |first| + 1 + |second| {
        assert stem[k] == tail[k - |first| - 1 - |second|];
      }
    }
  }

  /** The first two pieces of `first`, `sep`, `second`, `tail` are `first`
      and `second` when `tail` is empty or starts with `sep`. */
  lemma LeadingPieces(first: string, second: string, tail: string, sep: char)
    requires sep !in first && sep !in second
    requires tail == [] || tail[0] == sep
    ensures var parts := Split(first + [sep] + second + tail, sep);
            |parts| >= 2 && parts[0] == first && parts[1] == second
  {
    assert first + [sep] + second + tail == first + [sep] + (second + tail);
    SplitPiece(first, second + tail, sep);
    if tail == [] {
      assert second + tail == second;
      SplitFree(second, sep);
    } else {
      assert second + tail == second + [sep] + tail[1..];
      SplitPiece(second, tail[1..], sep);
    }
  }
}
