/**
 * String kernels shared by the Go packages: substring search (Go's strings.Contains),
 * decimal rendering of a non-negative integer (strconv.Itoa), the order-preserving
 * substring filter of the search box, and concatenation (strings.Join with "").
 */
module Text {

  import opened Wrappers

  // ---------------------------------------------------------------- substrings

  /** `sub` occurs in `s` starting at index `i`. */
  ghost predicate OccursAt(sub: string, s: string, i: nat) {
    i + |sub| <= |s| && s[i..i + |sub|] == sub
  }

  /** `sub` occurs somewhere in `s`. */
  ghost predicate IsSubstring(sub: string, s: string) {
    exists i: nat :: OccursAt(sub, s, i)
  }

  lemma OccursAtShift(sub: string, s: string, i: nat)
    requires |s| > 0
    ensures OccursAt(sub, s[1..], i) <==> OccursAt(sub, s, i + 1)
  {
    if i + |sub| <= |s| - 1 {
      assert s[1..][i..i + |sub|] == s[i + 1..i + 1 + |sub|];
    }
  }

  /** Go's strings.Contains(s, sub): scans every start position of `s`. */
  function Contains(s: string, sub: string): (r: bool)
    ensures r <==> IsSubstring(sub, s)
    decreases |s|
  {
    if |sub| <= |s| && s[..|sub|] == sub then
      assert OccursAt(sub, s, 0);
      true
    else if |s| == 0 then
      assert forall i: nat :: !OccursAt(sub, s, i);
      false
    else
      var rest := Contains(s[1..], sub);
      assert rest ==> IsSubstring(sub, s) by {
        if rest {
          var i: nat :| OccursAt(sub, s[1..], i);
          OccursAtShift(sub, s, i);
        }
      }
      assert IsSubstring(sub, s) ==> rest by {
        if IsSubstring(sub, s) {
          var i: nat :| OccursAt(sub, s, i);
          assert i != 0;
          OccursAtShift(sub, s, i - 1);
        }
      }
      rest
  }

  /** Every string occurs in itself and in any extension of it on either side. */
  lemma SubstringOfConcat(sub: string, a: string, b: string, c: string)
    requires sub == b
    ensures IsSubstring(sub, a + b + c)
  {
    assert (a + b + c)[|a|..|a| + |b|] == b;
    assert OccursAt(sub, a + b + c, |a|);
  }

  /** An occurrence inside a part stays an occurrence inside the whole. */
  lemma SubstringWiden(sub: string, a: string, b: string, c: string)
    requires IsSubstring(sub, b)
    ensures IsSubstring(sub, a + b + c)
  {
    var i: nat :| OccursAt(sub, b, i);
    assert (a + b + c)[|a| + i..|a| + i + |sub|] == b[i..i + |sub|];
    assert OccursAt(sub, a + b + c, |a| + i);
  }

  /** A text that lacks the first character of `sub` does not contain `sub`. */
  lemma NotSubstringByFirstChar(sub: string, s: string)
    requires |sub| > 0 && forall k :: 0 <= k < |s| ==> s[k] != sub[0]
    ensures !IsSubstring(sub, s)
  {
    forall i: nat
      ensures !OccursAt(sub, s, i)
    {
      if i + |sub| <= |s| {
        assert s[i..i + |sub|][0] == s[i] != sub[0];
      }
    }
  }

  /** The index of the first `c` in `s`. */
  function IndexOf(s: string, c: char): (r: Option<nat>)
    ensures r.Some? ==> r.value < |s| && s[r.value] == c && forall k :: 0 <= k < r.value ==> s[k] != c
    ensures r.None? ==> forall k :: 0 <= k < |s| ==> s[k] != c
  {
    if s == [] then None
    else if s[0] == c then Some(0)
    else match IndexOf(s[1..], c)
      case None => None
      case Some(i) => Some(i + 1)
  }

  lemma IndexOfAt(s: string, c: char, p: nat)
    requires p < |s| && s[p] == c
    requires forall k :: 0 <= k < p ==> s[k] != c
    ensures IndexOf(s, c) == Some(p)
  {
  }

  // ---------------------------------------------------------------- decimal numbers

  predicate IsDigit(c: char) {
    '0' <= c <= '9'
  }

  predicate AllDigits(s: string) {
    forall i :: 0 <= i < |s| ==> IsDigit(s[i])
  }

  function DigitChar(d: nat): (c: char)
    requires d < 10
    ensures IsDigit(c)
  {
    (d + '0' as int) as char
  }

  function DigitValue(c: char): nat
    requires IsDigit(c)
  {
    c as int - '0' as int
  }

  /** strconv.Itoa for a non-negative number: the shortest decimal numeral, no sign. */
  function Decimal(n: nat): (r: string)
    ensures |r| >= 1 && AllDigits(r)
    ensures |r| > 1 ==> r[0] != '0'
  {
    if n < 10 then [DigitChar(n)] else Decimal(n / 10) + [DigitChar(n % 10)]
  }

  /** The value of a numeral; the reading direction the partner of Decimal needs. */
  function ParseDecimal(s: string): nat
    requires AllDigits(s)
  {
    if s == [] then 0 else ParseDecimal(s[..|s| - 1]) * 10 + DigitValue(s[|s| - 1])
  }

  /** Reading back a rendered number gives the number. */
  lemma {:induction false} ParseDecimalOfDecimal(n: nat)
    ensures ParseDecimal(Decimal(n)) == n
  {
    var r := Decimal(n);
    if n >= 10 {
      ParseDecimalOfDecimal(n / 10);
      assert r[..|r| - 1] == Decimal(n / 10);
    }
  }

  // ---------------------------------------------------------------- concatenation

  /** strings.Join(parts, ""). */
  function Concat(parts: seq<string>): string {
    if parts == [] then "" else Concat(parts[..|parts| - 1]) + parts[|parts| - 1]
  }

  /** Joining one more part appends it. */
  lemma ConcatSnoc(parts: seq<string>, x: string)
    ensures Concat(parts + [x]) == Concat(parts) + x
  {
    assert (parts + [x])[..|parts|] == parts;
  }

  lemma {:induction false} ConcatAppend(a: seq<string>, b: seq<string>)
    ensures Concat(a + b) == Concat(a) + Concat(b)
    decreases |b|
  {
    if b == [] {
      assert a + b == a;
    } else {
      var init, x := b[..|b| - 1], b[|b| - 1];
      assert b == init + [x];
      assert a + b == (a + init) + [x];
      ConcatAppend(a, init);
      ConcatSnoc(a + init, x);
      ConcatSnoc(init, x);
    }
  }

  /** Joining two more parts appends both. */
  lemma ConcatPair(parts: seq<string>, a: string, b: string)
    ensures Concat(parts + [a, b]) == Concat(parts) + (a + b)
  {
    assert parts + [a, b] == (parts + [a]) + [b];
    ConcatSnoc(parts + [a], b);
    ConcatSnoc(parts, a);
  }

  /**
   * Appending the two pieces `a`, `b` of element `i` of `lines` keeps `out` equal to `slice`
   * followed by the joined prefix of `lines`, one element further.
   */
  lemma ConcatPairStep(out: seq<string>, slice: seq<string>, lines: seq<string>, i: nat, a: string, b: string)
    requires i < |lines| && lines[i] == a + b
    requires Concat(out) == Concat(slice) + Concat(lines[..i])
    ensures Concat(out + [a, b]) == Concat(slice) + Concat(lines[..i + 1])
  {
    ConcatPair(out, a, b);
    ConcatPrefixStep(lines, i);
  }

  /** Joining one more element of a list's prefix appends that element. */
  lemma ConcatPrefixStep(parts: seq<string>, i: nat)
    requires i < |parts|
    ensures Concat(parts[..i + 1]) == Concat(parts[..i]) + parts[i]
  {
    assert parts[..i + 1] == parts[..i] + [parts[i]];
    ConcatSnoc(parts[..i], parts[i]);
  }

  /** One part of a joined list occurs in the joined text. */
  lemma {:induction false} PartOfConcat(parts: seq<string>, i: nat)
    requires i < |parts|
    ensures IsSubstring(parts[i], Concat(parts))
  {
    var init := parts[..|parts| - 1];
    var last := parts[|parts| - 1];
    assert Concat(parts) == Concat(init) + last;
    if i == |parts| - 1 {
      SubstringOfConcat(last, Concat(init), last, "");
      assert Concat(init) + last + "" == Concat(parts);
    } else {
      PartOfConcat(init, i);
      assert init[i] == parts[i];
      SubstringWiden(parts[i], "", Concat(init), last);
      assert "" + Concat(init) + last == Concat(parts);
    }
  }

  /** An occurrence of an occurrence is an occurrence. */
  lemma SubstringTransitive(a: string, b: string, c: string)
    requires IsSubstring(a, b) && IsSubstring(b, c)
    ensures IsSubstring(a, c)
  {
    var i: nat :| OccursAt(a, b, i);
    var j: nat :| OccursAt(b, c, j);
    forall k | 0 <= k < |a|
      ensures c[j + i + k] == a[k]
    {
      assert a[k] == b[i..i + |a|][k] == b[i + k];
      assert b[i + k] == c[j..j + |b|][i + k] == c[j + i + k];
    }
    assert c[j + i..j + i + |a|] == a;
    assert OccursAt(a, c, j + i);
  }

  /** The opening text of a part occurs in the joined text. */
  lemma PrefixOfPartInConcat(parts: seq<string>, i: nat, p: string, q: string)
    requires i < |parts| && parts[i] == p + q
    ensures IsSubstring(p, Concat(parts))
  {
    PartOfConcat(parts, i);
    SubstringPrefix(p, q);
    SubstringTransitive(p, parts[i], Concat(parts));
  }

  lemma SubstringPrefix(p: string, q: string)
    ensures IsSubstring(p, p + q)
  {
    assert (p + q)[0..|p|] == p;
    assert OccursAt(p, p + q, 0);
  }

  /** A part of a joined list nested inside a part of another joined list occurs in the outer joined text. */
  lemma NestedPartInConcat(parts: seq<string>, i: nat, pre: string, inner: seq<string>, k: nat, post: string)
    requires i < |parts| && k < |inner|
    requires parts[i] == pre + Concat(inner) + post
    ensures IsSubstring(inner[k], Concat(parts))
  {
    PartOfConcat(inner, k);
    SubstringWiden(inner[k], pre, Concat(inner), post);
    PartOfConcat(parts, i);
    SubstringTransitive(inner[k], parts[i], Concat(parts));
  }

  // ---------------------------------------------------------------- search filter

  /** The elements of `xs` that contain `text`, in their original order. */
  function KeepContaining(xs: seq<string>, text: string): seq<string> {
    if xs == [] then []
    else
      var last := xs[|xs| - 1];
      KeepContaining(xs[..|xs| - 1], text) + (if Contains(last, text) then [last] else [])
  }

  /** `r` is obtained from `s` by deleting elements, keeping the order of the others. */
  ghost predicate IsSubsequence<T>(r: seq<T>, s: seq<T>) {
    || r == []
    || (&& s != []
        && (|| (r[|r| - 1] == s[|s| - 1] && IsSubsequence(r[..|r| - 1], s[..|s| - 1]))
            || IsSubsequence(r, s[..|s| - 1])))
  }

  /** Appending one element to `s`, and keeping it or not in `r`, preserves the subsequence relation. */
  lemma SubsequenceExtend<T>(r: seq<T>, s: seq<T>, x: T, keep: bool)
    requires IsSubsequence(r, s)
    ensures IsSubsequence(r + (if keep then [x] else []), s + [x])
  {
    assert (s + [x])[..|s|] == s;
    if keep {
      assert (r + [x])[..|r|] == r;
    } else {
      assert r + [] == r;
    }
  }

  /** Every kept element contains the text. */
  lemma {:induction false} KeepContainingSound(xs: seq<string>, text: string)
    ensures forall i :: 0 <= i < |KeepContaining(xs, text)| ==> IsSubstring(text, KeepContaining(xs, text)[i])
  {
    if xs != [] {
      KeepContainingSound(xs[..|xs| - 1], text);
    }
  }

  /** Every element that contains the text is kept. */
  lemma {:induction false} KeepContainingComplete(xs: seq<string>, text: string)
    ensures forall x :: x in xs && IsSubstring(text, x) ==> x in KeepContaining(xs, text)
  {
    if xs != [] {
      KeepContainingComplete(xs[..|xs| - 1], text);
      assert xs == xs[..|xs| - 1] + [xs[|xs| - 1]];
    }
  }

  /** Each name that contains the text is kept as often as it occurs; no other name is kept. */
  lemma {:induction false} KeepContainingCount(xs: seq<string>, text: string)
    ensures forall x :: multiset(KeepContaining(xs, text))[x] ==
                         (if Contains(x, text) then multiset(xs)[x] else 0)
  {
    if xs != [] {
      var init := xs[..|xs| - 1];
      var last := xs[|xs| - 1];
      KeepContainingCount(init, text);
      assert xs == init + [last];
      assert multiset(xs) == multiset(init) + multiset{last};
      var tail := if Contains(last, text) then [last] else [];
      assert multiset(KeepContaining(xs, text)) == multiset(KeepContaining(init, text)) + multiset(tail);
    }
  }

  /** The kept elements keep their relative order: the result is a subsequence of the input. */
  lemma {:induction false} KeepContainingOrdered(xs: seq<string>, text: string)
    ensures IsSubsequence(KeepContaining(xs, text), xs)
  {
    if xs != [] {
      var init := xs[..|xs| - 1];
      var last := xs[|xs| - 1];
      KeepContainingOrdered(init, text);
      SubsequenceExtend(KeepContaining(init, text), init, last, Contains(last, text));
      assert init + [last] == xs;
    }
  }

  /** Filtering a filtered list again with the same text changes nothing. */
  lemma {:induction false} KeepContainingIdempotent(xs: seq<string>, text: string)
    ensures KeepContaining(KeepContaining(xs, text), text) == KeepContaining(xs, text)
  {
    if xs != [] {
      var init := xs[..|xs| - 1];
      var last := xs[|xs| - 1];
      KeepContainingIdempotent(init, text);
      var k := KeepContaining(init, text);
      if Contains(last, text) {
        assert (k + [last])[..|k|] == k;
      } else {
        assert k + [] == k;
      }
    }
  }

  lemma {:induction false} SubsequencePrepend<T>(r: seq<T>, t: seq<T>, c: T)
    requires IsSubsequence(r, t)
    ensures IsSubsequence(r, [c] + t)
    ensures IsSubsequence([c] + r, [c] + t)
    decreases |t|
  {
    if r == [] {
      assert ([c] + r)[..0] == [];
      assert IsSubsequence([c] + r, [c]);
      if t != [] {
        SubsequencePrepend(r, t[..|t| - 1], c);
        assert ([c] + t)[..|t|] == [c] + t[..|t| - 1];
      }
    } else {
      assert ([c] + t)[..|t|] == [c] + t[..|t| - 1];
      assert ([c] + r)[..|r|] == [c] + r[..|r| - 1];
      if r[|r| - 1] == t[|t| - 1] && IsSubsequence(r[..|r| - 1], t[..|t| - 1]) {
        SubsequencePrepend(r[..|r| - 1], t[..|t| - 1], c);
      } else {
        SubsequencePrepend(r, t[..|t| - 1], c);
      }
    }
  }

  lemma {:induction false} SubsequenceDropPrefix<T>(r: seq<T>, a: seq<T>, b: seq<T>)
    requires IsSubsequence(r, b)
    ensures IsSubsequence(r, a + b)
    decreases |a|
  {
    if a == [] {
      assert a + b == b;
    } else {
      SubsequenceDropPrefix(r, a[1..], b);
      SubsequencePrepend(r, a[1..] + b, a[0]);
      assert [a[0]] + (a[1..] + b) == a + b;
    }
  }
}
