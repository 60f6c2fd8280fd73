/**
 * The handful of Python `str` operations the chatbot relies on, over
 * `string` = `seq<char>`: `isspace`, `strip()`, `split()`, `" ".join`,
 * prefix slicing `s[:k]` and decimal formatting of a non-negative `int`.
 */
module PyStr {

  /** Python's `str.isspace` for one character (the Unicode White_Space set Python uses). */
  predicate IsSpace(c: char) {
    || c == ' ' || c == '\t' || c == '\n' || c == '\r' || c == '\U{0B}' || c == '\U{0C}'
    || ('\U{1C}' <= c <= '\U{1F}')
    || c == '\U{85}' || c == '\U{A0}' || c == '\U{1680}'
    || ('\U{2000}' <= c <= '\U{200A}')
    || c == '\U{2028}' || c == '\U{2029}' || c == '\U{202F}' || c == '\U{205F}' || c == '\U{3000}'
  }

  predicate AllSpace(s: string) {
    forall k :: 0 <= k < |s| ==> IsSpace(s[k])
  }

  /** A token of `split()`: non-empty and free of whitespace. */
  predicate IsWord(w: string) {
    |w| > 0 && forall k :: 0 <= k < |w| ==> !IsSpace(w[k])
  }

  predicate AllWords(ws: seq<string>) {
    forall i :: 0 <= i < |ws| ==> IsWord(ws[i])
  }

  /** Number of whitespace characters at the start of `s`. */
  function LeadingSpaces(s: string): (n: nat)
    ensures n <= |s|
    ensures forall k :: 0 <= k < n ==> IsSpace(s[k])
    ensures n < |s| ==> !IsSpace(s[n])
  {
    if |s| == 0 || !IsSpace(s[0]) then 0 else 1 + LeadingSpaces(s[1..])
  }

  /** Number of whitespace characters at the end of `s`. */
  function TrailingSpaces(s: string): (n: nat)
    ensures n <= |s|
    ensures forall k :: |s| - n <= k < |s| ==> IsSpace(s[k])
    ensures n < |s| ==> !IsSpace(s[|s| - 1 - n])
  {
    if |s| == 0 || !IsSpace(s[|s| - 1]) then 0 else 1 + TrailingSpaces(s[..|s| - 1])
  }

  /** Number of non-whitespace characters at the start of `s`. */
  function WordLength(s: string): (n: nat)
    ensures n <= |s|
    ensures forall k :: 0 <= k < n ==> !IsSpace(s[k])
    ensures n < |s| ==> IsSpace(s[n])
  {
    if |s| == 0 || IsSpace(s[0]) then 0 else 1 + WordLength(s[1..])
  }

  /**
   * Python's `s.strip()`: `r` is what is left of `s` once a whitespace
   * prefix and a whitespace suffix are cut off, and neither end of `r`
   * is whitespace.
   */
  function Strip(s: string): (r: string)
    ensures LeadingSpaces(s) + |r| <= |s|
    ensures r == s[LeadingSpaces(s)..LeadingSpaces(s) + |r|]
    ensures AllSpace(s[LeadingSpaces(s) + |r|..])
    ensures r == [] <==> AllSpace(s)
    ensures r != [] ==> !IsSpace(r[0]) && !IsSpace(r[|r| - 1])
  {
    var i := LeadingSpaces(s);
    if i == |s| then
      assert s[i..] == [];
      []
    else
      var t := s[i..];
      var m := |t| - TrailingSpaces(t);
      assert t[0] == s[i];
      assert s[i + m..] == t[m..];
      t[..m]
  }

  /** A string with no whitespace at either end is left alone by `strip()`. */
  lemma StripTrimmed(s: string)
    requires s == [] || (!IsSpace(s[0]) && !IsSpace(s[|s| - 1]))
    ensures Strip(s) == s
  {
    if s != [] {
      assert LeadingSpaces(s) == 0;
      assert TrailingSpaces(s) == 0;
    }
  }

  lemma StripIdempotent(s: string)
    ensures Strip(Strip(s)) == Strip(s)
  {
    StripTrimmed(Strip(s));
  }

  /**
   * Python's `s.split()` with no separator: the maximal runs of
   * non-whitespace characters, in order.
   */
  function Split(s: string): (ws: seq<string>)
    ensures AllWords(ws)
    ensures ws == [] <==> AllSpace(s)
    decreases |s|
  {
    var i := LeadingSpaces(s);
    if i == |s| then []
    else
      var t := s[i..];
      var n := WordLength(t);
      [t[..n]] + Split(t[n..])
  }

  /** Python's `" ".join(ws)`. */
  function Join(ws: seq<string>): string
  {
    if |ws| == 0 then ""
    else if |ws| == 1 then ws[0]
    else ws[0] + " " + Join(ws[1..])
  }

  /** Joining at least one word gives a string whose ends are not whitespace. */
  lemma {:induction false} JoinWordsTrimmed(ws: seq<string>)
    requires |ws| > 0 && AllWords(ws)
    ensures |Join(ws)| > 0
    ensures !IsSpace(Join(ws)[0]) && !IsSpace(Join(ws)[|Join(ws)| - 1])
  {
    if |ws| > 1 {
      JoinWordsTrimmed(ws[1..]);
      var j := ws[0] + " " + Join(ws[1..]);
      assert j[0] == ws[0][0];
      assert j[|j| - 1] == Join(ws[1..])[|Join(ws[1..])| - 1];
    }
  }

  /** Leading whitespace does not change the result of `split()`. */
  lemma SplitSkipsSpace(c: char, s: string)
    requires IsSpace(c)
    ensures Split([c] + s) == Split(s)
  {
    var cs := [c] + s;
    assert cs[1..] == s;
    assert LeadingSpaces(cs) == 1 + LeadingSpaces(s);
    assert cs[LeadingSpaces(cs)..] == s[LeadingSpaces(s)..];
  }

  /** A word followed by the end of the string or by whitespace is the first token of `split()`. */
  lemma SplitWordThen(w: string, t: string)
    requires IsWord(w) && (t == [] || IsSpace(t[0]))
    ensures Split(w + t) == [w] + Split(t)
  {
    var s := w + t;
    assert s[0] == w[0];
    assert LeadingSpaces(s) == 0;
    assert s[0..] == s;
    assert forall k :: 0 <= k < |w| ==> s[k] == w[k];
    assert |w| < |s| ==> s[|w|] == t[0];
    assert forall k :: 0 <= k < |w| ==> !IsSpace(s[k]);
    assert WordLength(s) == |w|;
    assert s[..|w|] == w;
    assert s[|w|..] == t;
  }

  lemma SplitOneWord(w: string)
    requires IsWord(w)
    ensures Split(w) == [w]
  {
    SplitWordThen(w, []);
    assert w + [] == w;
    assert Split([]) == [];
  }

  /** The first word of a joined list is the first token of `split()`. */
  lemma SplitJoinCons(ws: seq<string>)
    requires |ws| > 1 && IsWord(ws[0])
    ensures Split(Join(ws)) == [ws[0]] + Split(Join(ws[1..]))
  {
    var rest := Join(ws[1..]);
    assert Join(ws) == ws[0] + " " + rest;
    assert ws[0] + " " + rest == ws[0] + ([' '] + rest);
    SplitWordThen(ws[0], [' '] + rest);
    SplitSkipsSpace(' ', rest);
  }

  /** `split()` undoes `" ".join` on a list of words. */
  lemma {:induction false} SplitJoin(ws: seq<string>)
    requires AllWords(ws)
    ensures Split(Join(ws)) == ws
  {
    if |ws| == 1 {
      SplitOneWord(ws[0]);
      assert ws == [ws[0]];
    } else if |ws| > 1 {
      var tail := ws[1..];
      assert IsWord(ws[0]);
      SplitJoinCons(ws);
      assert AllWords(tail) by {
        forall i | 0 <= i < |tail| ensures IsWord(tail[i]) {
          assert tail[i] == ws[i + 1];
        }
      }
      SplitJoin(tail);
      assert ws == [ws[0]] + tail;
    }
  }

  /** `s` begins with a non-whitespace character, so a character put in front of it joins its first word. */
  predicate StartsWord(s: string) {
    s != [] && !IsSpace(s[0])
  }

  /**
   * Splitting a concatenation whose seam has whitespace on at least one
   * side gives the words of each part, in order.
   */
  lemma {:induction false} SplitConcat(x: string, y: string)
    requires x == [] || y == [] || IsSpace(x[|x| - 1]) || IsSpace(y[0])
    ensures Split(x + y) == Split(x) + Split(y)
    decreases |x|, 1
  {
    if x == [] {
      assert x + y == y;
    } else if IsSpace(x[0]) {
      SplitConcatSpaceStep(x, y);
    } else if WordLength(x) < |x| {
      SplitConcatWordStep(x, y);
    } else {
      SplitConcatWhole(x, y);
    }
  }

  /** The step of `SplitConcat` past a leading whitespace character. */
  lemma {:induction false} SplitConcatSpaceStep(x: string, y: string)
    requires x != [] && IsSpace(x[0])
    requires y == [] || IsSpace(x[|x| - 1]) || IsSpace(y[0])
    ensures Split(x + y) == Split(x) + Split(y)
    decreases |x|, 0
  {
    assert |x| > 1 ==> x[1..][|x| - 2] == x[|x| - 1];
    SplitConcat(x[1..], y);
    SplitConcatSpace(x[0], x[1..], y);
    ConsReassociate(x, y);
  }

  /** The step of `SplitConcat` past a leading word that whitespace ends inside `x`. */
  lemma {:induction false} SplitConcatWordStep(x: string, y: string)
    requires StartsWord(x) && WordLength(x) < |x|
    requires y == [] || IsSpace(x[|x| - 1]) || IsSpace(y[0])
    ensures Split(x + y) == Split(x) + Split(y)
    decreases |x|, 0
  {
    var n := WordLength(x);
    var a := x[n..];
    assert a[|a| - 1] == x[|x| - 1];
    SplitConcat(a, y);
    assert IsWord(x[..n]);
    SplitConcatWord(x[..n], a, y);
    Reassociate(x, n, y);
  }

  /** Cutting `x` at `n` and gluing the pieces back, with or without `y` after it. */
  lemma Reassociate(x: string, n: nat, y: string)
    requires n <= |x|
    ensures x[..n] + x[n..] == x
    ensures x[..n] + (x[n..] + y) == x + y
  {
    assert x[..n] + x[n..] == x;
  }

  lemma ConsReassociate(x: string, y: string)
    requires x != []
    ensures [x[0]] + x[1..] == x
    ensures [x[0]] + (x[1..] + y) == x + y
  {
    assert [x[0]] + x[1..] == x;
  }

  /** The first token of a word-initial string is its leading run of non-whitespace. */
  lemma SplitFirst(x: string)
    requires StartsWord(x)
    ensures Split(x) == [x[..WordLength(x)]] + Split(x[WordLength(x)..])
  {
    assert LeadingSpaces(x) == 0;
    assert x[0..] == x;
  }

  lemma SplitConcatSpace(c: char, a: string, y: string)
    requires IsSpace(c) && Split(a + y) == Split(a) + Split(y)
    ensures Split([c] + (a + y)) == Split([c] + a) + Split(y)
  {
    SplitSkipsSpace(c, a);
    SplitSkipsSpace(c, a + y);
  }

  lemma SplitConcatWord(w: string, a: string, y: string)
    requires IsWord(w) && a != [] && IsSpace(a[0]) && Split(a + y) == Split(a) + Split(y)
    ensures Split(w + (a + y)) == Split(w + a) + Split(y)
  {
    SplitWordThen(w, a);
    assert (a + y)[0] == a[0];
    SplitWordThen(w, a + y);
    ConcatAssoc([w], Split(a), Split(y));
  }

  lemma ConcatAssoc<T>(p: seq<T>, q: seq<T>, r: seq<T>)
    ensures (p + q) + r == p + (q + r)
  {
  }

  lemma SplitConcatWhole(x: string, y: string)
    requires StartsWord(x) && WordLength(x) == |x|
    requires IsSpace(x[|x| - 1]) || y == [] || IsSpace(y[0])
    ensures Split(x + y) == Split(x) + Split(y)
  {
    assert IsWord(x);
    SplitOneWord(x);
    SplitWordThen(x, y);
  }

  /** `strip()` never changes the words `split()` finds. */
  lemma SplitStrip(s: string)
    ensures Split(Strip(s)) == Split(s)
  {
    var i := LeadingSpaces(s);
    var r := Strip(s);
    StripParts(s);
    SplitWithin(s, s[..i], r, s[i + |r|..]);
  }

  lemma SplitWithin(s: string, pre: string, r: string, post: string)
    requires s == pre + r + post && AllSpace(pre) && AllSpace(post)
    ensures Split(s) == Split(r)
  {
    SplitAround(pre, r, post);
  }

  /** Whitespace around a text does not change its words. */
  lemma SplitAround(pre: string, r: string, post: string)
    requires AllSpace(pre) && AllSpace(post)
    ensures Split(pre + r + post) == Split(r)
  {
    SplitConcat(pre, r);
    SplitConcat(pre + r, post);
    EmptyEnds(Split(pre), Split(r), Split(post));
  }

  lemma EmptyEnds<T>(p: seq<T>, q: seq<T>, r: seq<T>)
    requires p == [] && r == []
    ensures p + q + r == q
  {
  }

  /** `s` is its whitespace prefix, the stripped text and its whitespace suffix, in that order. */
  lemma StripParts(s: string)
    ensures var i := LeadingSpaces(s);
      var r := Strip(s);
      && s == s[..i] + r + s[i + |r|..]
      && AllSpace(s[..i]) && AllSpace(s[i + |r|..])
  {
    var i := LeadingSpaces(s);
    var r := Strip(s);
    assert s == s[..i] + s[i..i + |r|] + s[i + |r|..];
  }

  /** A non-whitespace character in front of a word-initial string extends its first word. */
  lemma SplitConsWord(c: char, x: string)
    requires !IsSpace(c) && StartsWord(x)
    ensures Split(x) != [] && Split([c] + x) == [[c] + Split(x)[0]] + Split(x)[1..]
  {
    var n := WordLength(x);
    SplitFirst(x);
    HeadTail(x[..n], Split(x[n..]), Split(x));
    WordLengthCons(c, x);
    SplitFirst([c] + x);
    ConsSlices(c, x, n);
  }

  lemma HeadTail<T>(a: T, r: seq<T>, s: seq<T>)
    requires s == [a] + r
    ensures s != [] && s[0] == a && s[1..] == r
  {
  }

  lemma ConsSlices<T>(c: T, x: seq<T>, n: nat)
    requires n <= |x|
    ensures ([c] + x)[..n + 1] == [c] + x[..n] && ([c] + x)[n + 1..] == x[n..]
  {
  }

  lemma WordLengthCons(c: char, x: string)
    requires !IsSpace(c)
    ensures WordLength([c] + x) == 1 + WordLength(x)
  {
    assert ([c] + x)[1..] == x;
  }

  /**
   * What `split()` makes of `[c] + x` depends only on the words of `x`
   * and on whether `x` starts inside a word.
   */
  lemma SplitCons(c: char, x: string, y: string)
    requires Split(x) == Split(y) && StartsWord(x) == StartsWord(y)
    ensures Split([c] + x) == Split([c] + y)
  {
    if IsSpace(c) {
      SplitSkipsSpace(c, x);
      SplitSkipsSpace(c, y);
    } else if StartsWord(x) {
      SplitConsWord(c, x);
      SplitConsWord(c, y);
    } else {
      assert IsWord([c]);
      SplitWordThen([c], x);
      SplitWordThen([c], y);
    }
  }

  /** Python's `s[:k]` for `k >= 0`. */
  function Prefix(s: string, k: nat): (r: string)
    ensures |r| <= k
    ensures r <= s
    ensures |s| <= k ==> r == s
    ensures |s| > k ==> |r| == k
  {
    if |s| <= k then s else s[..k]
  }

  function DigitChar(d: nat): (c: char)
    requires d < 10
  {
    ('0' as int + d) as char
  }

  predicate IsDigit(c: char) {
    '0' <= c <= '9'
  }

  function DigitValue(c: char): (d: nat)
    requires IsDigit(c)
    ensures d < 10
  {
    c as int - '0' as int
  }

  /** Python's `f"{n}"` for `n >= 0`: decimal digits, no leading zero. */
  function Decimal(n: nat): (s: string)
    ensures |s| > 0
    ensures forall k :: 0 <= k < |s| ==> IsDigit(s[k])
    ensures n >= 10 ==> s[0] != '0'
  {
    if n < 10 then [DigitChar(n)] else Decimal(n / 10) + [DigitChar(n % 10)]
  }

  /** Reads a string of decimal digits back as a number (Python's `int(s)`). */
  function ParseDecimal(s: string): nat
    requires forall k :: 0 <= k < |s| ==> IsDigit(s[k])
  {
    if |s| == 0 then 0 else ParseDecimal(s[..|s| - 1]) * 10 + DigitValue(s[|s| - 1])
  }

  lemma {:induction false} DecimalRoundTrip(n: nat)
    ensures ParseDecimal(Decimal(n)) == n
  {
    var s := Decimal(n);
    if n >= 10 {
      assert s[..|s| - 1] == Decimal(n / 10);
      DecimalRoundTrip(n / 10);
    }
  }

  /** Distinct numbers format to distinct strings. */
  lemma DecimalInjective(a: nat, b: nat)
    requires a != b
    ensures Decimal(a) != Decimal(b)
  {
    DecimalRoundTrip(a);
    DecimalRoundTrip(b);
  }

  /** Stripping a trimmed, non-empty word with whitespace padding gives the word back. */
  lemma PaddedStrip(pre: string, w: string, post: string)
    requires AllSpace(pre) && AllSpace(post) && w != [] && Strip(w) == w
    ensures Strip(pre + w + post) == w
  {
    var s := pre + w + post;
    var n := |pre| + |w|;
    assert !IsSpace(w[0]) && !IsSpace(w[|w| - 1]);
    PaddedParts(pre, w, post);
    assert LeadingSpaces(s) == |pre| by {
      assert forall k :: 0 <= k < |pre| ==> s[k] == pre[k];
    }
    StripSpan(s, n);
  }

  /** Where the three parts of a padded word sit. */
  lemma PaddedParts(pre: string, w: string, post: string)
    requires w != []
    ensures var s := pre + w + post;
      && s[|pre|] == w[0] && s[|pre| + |w| - 1] == w[|w| - 1]
      && s[|pre|..|pre| + |w|] == w && s[|pre| + |w|..] == post
  {
  }

  /**
   * When `s` is non-blank up to `n`, its last non-whitespace character sits
   * at `n - 1`, `strip()` keeps exactly the characters from the first
   * non-whitespace one to `n - 1`.
   */
  lemma StripSpan(s: string, n: nat)
    requires LeadingSpaces(s) < n <= |s| && !IsSpace(s[n - 1]) && AllSpace(s[n..])
    ensures Strip(s) == s[LeadingSpaces(s)..n]
  {
    assert !AllSpace(s) by {
      assert !IsSpace(s[n - 1]);
    }
    StripEnd(s);
    SpanEnd(s, LeadingSpaces(s) + |Strip(s)|, n);
  }

  /** Where the stripped text of a non-blank string ends. */
  lemma StripEnd(s: string)
    requires !AllSpace(s)
    ensures var j := LeadingSpaces(s) + |Strip(s)|;
      0 < j <= |s| && !IsSpace(s[j - 1]) && AllSpace(s[j..])
  {
    var r := Strip(s);
    SliceLast(r, s, LeadingSpaces(s), LeadingSpaces(s) + |r|);
  }

  /** Two ends of non-whitespace followed only by whitespace are the same end. */
  lemma SpanEnd(s: string, j: nat, n: nat)
    requires 0 < j <= |s| && !IsSpace(s[j - 1]) && AllSpace(s[j..])
    requires 0 < n <= |s| && !IsSpace(s[n - 1]) && AllSpace(s[n..])
    ensures j == n
  {
    SuffixSpaces(s, j);
    SuffixSpaces(s, n);
  }

  lemma SliceLast<T>(r: seq<T>, s: seq<T>, i: nat, j: nat)
    requires i < j <= |s| && r == s[i..j]
    ensures r[|r| - 1] == s[j - 1]
  {
  }

  /** Every character of an all-whitespace suffix is whitespace. */
  lemma SuffixSpaces(s: string, j: nat)
    requires j <= |s| && AllSpace(s[j..])
    ensures forall k :: j <= k < |s| ==> IsSpace(s[k])
  {
    assert forall k :: j <= k < |s| ==> s[j..][k - j] == s[k];
  }
}
