/**
 * The text clean-up applied to every extracted document before chunking
 * (`normalize_text` in the ingestion script).
 */
module Normalize {
  import opened PyStr

  const Nul: char := '\0'
  const ZeroWidthSpace: char := '\U{200B}'

  /** The class `[ \t\r\f\v]` of the ingestion script's whitespace regex; newline is not in it. */
  predicate IsHorizontal(c: char) {
    c == ' ' || c == '\t' || c == '\r' || c == '\U{0C}' || c == '\U{0B}'
  }

  predicate NoDoubleSpace(s: string) {
    forall i :: 0 <= i < |s| - 1 ==> !(s[i] == ' ' && s[i + 1] == ' ')
  }

  /** `t.replace("\x00", " ")`. */
  function ReplaceNul(s: string): (r: string)
    ensures |r| == |s|
    ensures forall i :: 0 <= i < |s| ==> r[i] == (if s[i] == Nul then ' ' else s[i])
  {
    if |s| == 0 then [] else [if s[0] == Nul then ' ' else s[0]] + ReplaceNul(s[1..])
  }

  /** `t.replace("​", "")`. */
  function RemoveZeroWidth(s: string): (r: string)
    ensures ZeroWidthSpace !in r
    ensures forall c :: c in r <==> c in s && c != ZeroWidthSpace
    ensures ZeroWidthSpace !in s ==> r == s
    ensures |r| == |s| - multiset(s)[ZeroWidthSpace]
  {
    if |s| == 0 then []
    else
      assert s == [s[0]] + s[1..];
      if s[0] == ZeroWidthSpace then RemoveZeroWidth(s[1..])
      else [s[0]] + RemoveZeroWidth(s[1..])
  }

  /** What is left of `s` after its leading run of horizontal whitespace. */
  function DropHorizontal(s: string): (r: string)
    ensures |r| <= |s|
    ensures r == s[|s| - |r|..]
    ensures forall k :: 0 <= k < |s| - |r| ==> IsHorizontal(s[k])
    ensures |r| > 0 ==> !IsHorizontal(r[0])
  {
    if |s| > 0 && IsHorizontal(s[0]) then DropHorizontal(s[1..]) else s
  }

  /**
   * `re.sub(r"[ \t\r\f\v]+", " ", t)`: every maximal run of horizontal
   * whitespace becomes one space, everything else is copied.
   */
  function CollapseHorizontal(s: string): (r: string)
    ensures |r| == 0 <==> |s| == 0
    ensures |s| > 0 ==> r[0] == (if IsHorizontal(s[0]) then ' ' else s[0])
    ensures |s| > 0 ==> r[|r| - 1] == (if IsHorizontal(s[|s| - 1]) then ' ' else s[|s| - 1])
    ensures forall i :: 0 <= i < |r| ==> r[i] == ' ' || !IsHorizontal(r[i])
    ensures forall c :: c in r && c != ' ' ==> c in s
    ensures NoDoubleSpace(r)
    decreases |s|
  {
    if |s| == 0 then []
    else if IsHorizontal(s[0]) then
      var d := DropHorizontal(s[1..]);
      DropLast(s[1..]);
      TailLast(s);
      PrependCollapsed(' ', CollapseHorizontal(d));
      [' '] + CollapseHorizontal(d)
    else
      TailLast(s);
      PrependCollapsed(s[0], CollapseHorizontal(s[1..]));
      [s[0]] + CollapseHorizontal(s[1..])
  }

  /** Putting a space or a visible character in front keeps the collapsed shape. */
  lemma PrependCollapsed(c: char, t: string)
    requires c == ' ' || !IsHorizontal(c)
    requires forall i :: 0 <= i < |t| ==> t[i] == ' ' || !IsHorizontal(t[i])
    requires NoDoubleSpace(t)
    requires c == ' ' && t != [] ==> t[0] != ' '
    ensures forall i :: 0 <= i < |[c] + t| ==> ([c] + t)[i] == ' ' || !IsHorizontal(([c] + t)[i])
    ensures NoDoubleSpace([c] + t)
    ensures forall x :: x in [c] + t ==> x == c || x in t
  {
    assert forall i :: 1 <= i < |[c] + t| ==> ([c] + t)[i] == t[i - 1];
  }

  /**
   * `normalize_text`: the result is `Clean`, and it splits into exactly the
   * words of the input once NULs are spaces and U+200B is gone, so no two
   * words are ever glued together or cut apart.
   */
  function NormalizeText(t: string): (r: string)
    ensures Clean(r)
    ensures Split(r) == Split(RemoveZeroWidth(ReplaceNul(t)))
  {
    var c := RemoveZeroWidth(ReplaceNul(t));
    var k := CollapseHorizontal(c);
    assert Nul !in ReplaceNul(t);
    CollapsedClean(c);
    SplitCollapse(c);
    SplitStrip(k);
    Strip(k)
  }

  /** Collapsing and stripping a text free of NUL and U+200B gives a `Clean` result. */
  lemma CollapsedClean(c: string)
    requires Nul !in c && ZeroWidthSpace !in c
    ensures Clean(Strip(CollapseHorizontal(c)))
  {
    CollapseFree(c);
    StripKeepsClean(CollapseHorizontal(c));
  }

  /** Collapsing brings in no NUL and no U+200B. */
  lemma CollapseFree(c: string)
    requires Nul !in c && ZeroWidthSpace !in c
    ensures Nul !in CollapseHorizontal(c) && ZeroWidthSpace !in CollapseHorizontal(c)
  {
  }

  /** Stripping a collapsed text free of NUL and U+200B gives a `Clean` result. */
  lemma StripKeepsClean(k: string)
    requires Nul !in k && ZeroWidthSpace !in k
    requires forall i :: 0 <= i < |k| ==> k[i] == ' ' || !IsHorizontal(k[i])
    requires NoDoubleSpace(k)
    ensures Clean(Strip(k))
  {
    SliceKeepsClean(k, LeadingSpaces(k), Strip(k));
  }

  /** The characters of `s` that are not horizontal whitespace, in order. */
  function Visible(s: string): (r: string)
  {
    if |s| == 0 then []
    else if IsHorizontal(s[0]) then Visible(s[1..])
    else [s[0]] + Visible(s[1..])
  }

  /** What `normalize_text` guarantees about its output. */
  predicate Clean(r: string) {
    && Nul !in r
    && ZeroWidthSpace !in r
    && (forall i :: 0 <= i < |r| ==> r[i] == ' ' || !IsHorizontal(r[i]))
    && NoDoubleSpace(r)
    && (r == [] || (!IsSpace(r[0]) && !IsSpace(r[|r| - 1])))
  }

  /** Cutting a contiguous piece out of a string keeps the character-level guarantees. */
  lemma SliceKeepsClean(c: string, i: nat, r: string)
    requires i + |r| <= |c| && r == c[i..i + |r|]
    requires Nul !in c && ZeroWidthSpace !in c
    requires forall k :: 0 <= k < |c| ==> c[k] == ' ' || !IsHorizontal(c[k])
    requires NoDoubleSpace(c)
    ensures Nul !in r && ZeroWidthSpace !in r
    ensures forall k :: 0 <= k < |r| ==> r[k] == ' ' || !IsHorizontal(r[k])
    ensures NoDoubleSpace(r)
  {
    assert forall k :: 0 <= k < |r| ==> r[k] == c[i + k];
  }

  /** Visible characters are never dropped from the interior: collapsing only touches horizontal whitespace. */
  lemma {:induction false} CollapseKeepsVisible(s: string)
    ensures Visible(CollapseHorizontal(s)) == Visible(s)
    decreases |s|
  {
    if |s| == 0 {
    } else if IsHorizontal(s[0]) {
      var d := DropHorizontal(s[1..]);
      DropKeepsVisible(s[1..]);
      CollapseKeepsVisible(d);
      assert ([' '] + CollapseHorizontal(d))[1..] == CollapseHorizontal(d);
    } else {
      CollapseKeepsVisible(s[1..]);
      assert ([s[0]] + CollapseHorizontal(s[1..]))[1..] == CollapseHorizontal(s[1..]);
    }
  }

  lemma {:induction false} DropKeepsVisible(s: string)
    ensures Visible(DropHorizontal(s)) == Visible(s)
  {
    if |s| > 0 && IsHorizontal(s[0]) {
      DropKeepsVisible(s[1..]);
    }
  }

  /**
   * `normalize_text` changes only horizontal whitespace and the whitespace
   * at either end: every other character of the NUL/U+200B-cleaned text
   * between its first and last non-whitespace character, interior
   * newlines included, survives in order; when that text has no
   * whitespace at either end, all of it does.
   */
  lemma NormalizeKeepsVisible(t: string)
    ensures Visible(NormalizeText(t)) == Visible(Strip(RemoveZeroWidth(ReplaceNul(t))))
    ensures var c := RemoveZeroWidth(ReplaceNul(t));
      c != [] && !IsSpace(c[0]) && !IsSpace(c[|c| - 1]) ==> Visible(NormalizeText(t)) == Visible(c)
  {
    var c := RemoveZeroWidth(ReplaceNul(t));
    assert NormalizeText(t) == Strip(CollapseHorizontal(c));
    CollapseStripCommute(c);
    CollapseKeepsVisible(Strip(c));
    if c != [] && !IsSpace(c[0]) && !IsSpace(c[|c| - 1]) {
      StripTrimmed(c);
    }
  }

  /** Stripping after collapsing is collapsing after stripping. */
  lemma CollapseStripCommute(c: string)
    ensures Strip(CollapseHorizontal(c)) == CollapseHorizontal(Strip(c))
  {
    if AllSpace(c) {
      CollapseAllSpace(c);
      assert Strip(c) == [];
    } else {
      var i := LeadingSpaces(c);
      var m := Strip(c);
      StripParts(c);
      CollapseCore(c, c[..i], m, c[i + |m|..]);
    }
  }

  /** Around a core that starts and ends visibly, collapsing then stripping leaves the collapsed core. */
  lemma CollapseCore(c: string, pre: string, m: string, post: string)
    requires c == pre + m + post && AllSpace(pre) && AllSpace(post)
    requires m != [] && !IsSpace(m[0]) && !IsSpace(m[|m| - 1])
    ensures Strip(CollapseHorizontal(c)) == CollapseHorizontal(m)
  {
    CollapseThree(pre, m, post);
    CollapseAllSpace(pre);
    CollapseAllSpace(post);
    CollapseTrimmed(m);
    PaddedStrip(CollapseHorizontal(pre), CollapseHorizontal(m), CollapseHorizontal(post));
  }

  /** Collapsing acts on each part of `pre + m + post` separately when `m` starts and ends visibly. */
  lemma CollapseThree(pre: string, m: string, post: string)
    requires m != [] && !IsSpace(m[0]) && !IsSpace(m[|m| - 1])
    ensures CollapseHorizontal(pre + m + post)
         == CollapseHorizontal(pre) + CollapseHorizontal(m) + CollapseHorizontal(post)
  {
    assert (pre + m)[|pre + m| - 1] == m[|m| - 1];
    CollapseConcat(pre, m);
    CollapseConcat(pre + m, post);
  }

  /** Collapsing whitespace-only text leaves whitespace only. */
  lemma CollapseAllSpace(s: string)
    requires AllSpace(s)
    ensures AllSpace(CollapseHorizontal(s))
  {
    var r := CollapseHorizontal(s);
    forall k | 0 <= k < |r|
      ensures IsSpace(r[k])
    {
      assert r[k] in r;
    }
  }

  /** Collapsing a text with no whitespace at either end leaves nothing for `strip()` to cut. */
  lemma CollapseTrimmed(c: string)
    requires c != [] && !IsSpace(c[0]) && !IsSpace(c[|c| - 1])
    ensures Strip(CollapseHorizontal(c)) == CollapseHorizontal(c)
  {
    StripTrimmed(CollapseHorizontal(c));
  }

  /** A string with no horizontal whitespace other than single spaces is left alone by the regex. */
  lemma {:induction false} CollapseFixed(s: string)
    requires forall i :: 0 <= i < |s| ==> s[i] == ' ' || !IsHorizontal(s[i])
    requires NoDoubleSpace(s)
    ensures CollapseHorizontal(s) == s
  {
    if |s| > 0 {
      CollapseFixed(s[1..]);
      if IsHorizontal(s[0]) {
        assert |s| > 1 ==> !IsHorizontal(s[1]);
        assert DropHorizontal(s[1..]) == s[1..];
      }
    }
  }

  lemma ReplaceNulFixed(s: string)
    requires Nul !in s
    ensures ReplaceNul(s) == s
  {
  }

  /** `normalize_text` is idempotent. */
  lemma NormalizeIdempotent(t: string)
    ensures NormalizeText(NormalizeText(t)) == NormalizeText(t)
  {
    var r := NormalizeText(t);
    ReplaceNulFixed(r);
    assert RemoveZeroWidth(r) == r;
    CollapseFixed(r);
    StripTrimmed(r);
  }

  /** The removal works piece by piece: the result for `x + y` is the result for `x` followed by the result for `y`. */
  lemma {:induction false} RemoveZeroWidthConcat(x: string, y: string)
    ensures RemoveZeroWidth(x + y) == RemoveZeroWidth(x) + RemoveZeroWidth(y)
  {
    if x == [] {
      assert x + y == y;
    } else {
      assert (x + y)[0] == x[0];
      assert (x + y)[1..] == x[1..] + y;
      RemoveZeroWidthConcat(x[1..], y);
      ConcatAssoc([x[0]], RemoveZeroWidth(x[1..]), RemoveZeroWidth(y));
    }
  }

  /** One character: U+200B is dropped, anything else is kept. */
  lemma RemoveZeroWidthChar(c: char)
    ensures RemoveZeroWidth([c]) == if c == ZeroWidthSpace then [] else [c]
  {
    assert [c][1..] == [];
  }

  /** Skipping leading horizontal whitespace of `a + y`: the rest of `a`, or, when `a` is all horizontal, `y`'s rest. */
  lemma {:induction false} DropConcat(a: string, y: string)
    ensures DropHorizontal(a + y) == if DropHorizontal(a) != [] then DropHorizontal(a) + y else DropHorizontal(y)
  {
    if a == [] {
      assert a + y == y;
    } else {
      assert (a + y)[0] == a[0];
      if IsHorizontal(a[0]) {
        assert (a + y)[1..] == a[1..] + y;
        DropConcat(a[1..], y);
      }
    }
  }

  /**
   * The regex works run by run: when the seam between `x` and `y` is not
   * inside a run of horizontal whitespace, `x + y` collapses to the
   * collapsed `x` followed by the collapsed `y`.
   */
  lemma {:induction false} CollapseConcat(x: string, y: string)
    requires x == [] || y == [] || !IsHorizontal(x[|x| - 1]) || !IsHorizontal(y[0])
    ensures CollapseHorizontal(x + y) == CollapseHorizontal(x) + CollapseHorizontal(y)
    decreases |x|
  {
    if x == [] {
      assert x + y == y;
    } else {
      ConsReassociate(x, y);
      var a := x[1..];
      TailLast(x);
      if !IsHorizontal(x[0]) {
        CollapseConcat(a, y);
        CollapseCons(x[0], a, y);
      } else {
        DropConcat(a, y);
        DropLast(a);
        var d := DropHorizontal(a);
        if d != [] {
          CollapseConcat(d, y);
          CollapseRunThen(x[0], a, y);
        } else {
          CollapseRunEnd(x[0], a, y);
        }
      }
    }
  }

  lemma TailLast(x: string)
    requires x != []
    ensures |x| > 1 ==> x[1..][|x| - 2] == x[|x| - 1]
  {
  }

  /** What is left after the leading run ends where `a` ends; if nothing is left, `a` is all horizontal. */
  lemma DropLast(a: string)
    ensures DropHorizontal(a) != [] ==> DropHorizontal(a)[|DropHorizontal(a)| - 1] == a[|a| - 1]
    ensures DropHorizontal(a) == [] ==> forall k :: 0 <= k < |a| ==> IsHorizontal(a[k])
  {
  }

  /** One step of the regex: a horizontal character starts a run that becomes one space. */
  lemma CollapseHead(c: char, a: string)
    ensures CollapseHorizontal([c] + a)
         == if IsHorizontal(c) then [' '] + CollapseHorizontal(DropHorizontal(a)) else [c] + CollapseHorizontal(a)
  {
    assert ([c] + a)[1..] == a;
  }

  lemma CollapseCons(c: char, a: string, y: string)
    requires !IsHorizontal(c) && CollapseHorizontal(a + y) == CollapseHorizontal(a) + CollapseHorizontal(y)
    ensures CollapseHorizontal([c] + (a + y)) == CollapseHorizontal([c] + a) + CollapseHorizontal(y)
  {
    CollapseHead(c, a + y);
    CollapseHead(c, a);
    ConcatAssoc([c], CollapseHorizontal(a), CollapseHorizontal(y));
  }

  lemma CollapseRunThen(c: char, a: string, y: string)
    requires IsHorizontal(c) && DropHorizontal(a) != [] && DropHorizontal(a + y) == DropHorizontal(a) + y
    requires CollapseHorizontal(DropHorizontal(a) + y) == CollapseHorizontal(DropHorizontal(a)) + CollapseHorizontal(y)
    ensures CollapseHorizontal([c] + (a + y)) == CollapseHorizontal([c] + a) + CollapseHorizontal(y)
  {
    CollapseHead(c, a + y);
    CollapseHead(c, a);
    ConcatAssoc([' '], CollapseHorizontal(DropHorizontal(a)), CollapseHorizontal(y));
  }

  /** A run that ends where `x` ends: `y` begins with a visible character or is empty. */
  lemma CollapseRunEnd(c: char, a: string, y: string)
    requires IsHorizontal(c) && DropHorizontal(a) == [] && DropHorizontal(a + y) == DropHorizontal(y)
    requires forall k :: 0 <= k < |a| ==> IsHorizontal(a[k])
    requires y == [] || !IsHorizontal(([c] + a)[|a|]) || !IsHorizontal(y[0])
    ensures CollapseHorizontal([c] + (a + y)) == CollapseHorizontal([c] + a) + CollapseHorizontal(y)
  {
    assert ([c] + a)[|a|] == if |a| > 0 then a[|a| - 1] else c;
    assert DropHorizontal(y) == y;
    CollapseHead(c, a + y);
    CollapseHead(c, a);
    assert [' '] + CollapseHorizontal([]) == [' '];
  }

  /** A non-empty run of horizontal whitespace becomes exactly one space. */
  lemma CollapseRun(h: string)
    requires h != [] && forall k :: 0 <= k < |h| ==> IsHorizontal(h[k])
    ensures CollapseHorizontal(h) == " "
  {
    assert forall k :: 0 <= k < |h[1..]| ==> IsHorizontal(h[1..][k]);
    assert DropHorizontal(h[1..]) == [];
  }

  /** Skipping horizontal whitespace never changes the words `split()` finds. */
  lemma {:induction false} DropSplit(s: string)
    ensures Split(DropHorizontal(s)) == Split(s)
  {
    if |s| > 0 && IsHorizontal(s[0]) {
      DropSplit(s[1..]);
      SplitSkipsSpace(s[0], s[1..]);
      ConsReassociate(s, []);
    }
  }

  /** Collapsing runs of horizontal whitespace never changes the words `split()` finds. */
  lemma {:induction false} SplitCollapse(s: string)
    ensures Split(CollapseHorizontal(s)) == Split(s)
    decreases |s|
  {
    if |s| > 0 {
      ConsReassociate(s, []);
      if IsHorizontal(s[0]) {
        var d := DropHorizontal(s[1..]);
        SplitCollapse(d);
        DropSplit(s[1..]);
        SplitSkipsSpace(' ', CollapseHorizontal(d));
        SplitSkipsSpace(s[0], s[1..]);
      } else {
        var k := CollapseHorizontal(s[1..]);
        SplitCollapse(s[1..]);
        assert StartsWord(k) == StartsWord(s[1..]);
        SplitCons(s[0], k, s[1..]);
      }
    }
  }
}
