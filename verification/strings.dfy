/** The parts of Go's `strings` package the scraper relies on: trimming a
    cut-set from both ends (`TrimSpace`, `Trim(s, "\n")`) and searching for
    the first occurrence of a substring (`Index`, `Contains`). */
module Strings {

  /** Go's `unicode.IsSpace`: the characters with the Unicode White_Space
      property. */
  predicate IsSpace(c: char)
  {
    var n := c as int;
    || (0x09 <= n <= 0x0D)
    || n == 0x20
    || n == 0x85
    || n == 0xA0
    || n == 0x1680
    || (0x2000 <= n <= 0x200A)
    || n == 0x2028
    || n == 0x2029
    || n == 0x202F
    || n == 0x205F
    || n == 0x3000
  }

  /** The one-character cut-set "\n". */
  predicate IsNewline(c: char)
  {
    c == '\n'
  }

  /** Every character of `s` belongs to the cut-set. */
  ghost predicate AllIn(s: string, cut: char -> bool)
  {
    forall i :: 0 <= i < |s| ==> cut(s[i])
  }

  /** `s` neither starts nor ends with a character of the cut-set. */
  ghost predicate Bare(s: string, cut: char -> bool)
  {
    |s| == 0 || (!cut(s[0]) && !cut(s[|s| - 1]))
  }

  /** The end of the run of cut-set characters that starts at `i`. */
  function SkipForward(s: string, cut: char -> bool, i: nat): (k: nat)
    requires i <= |s|
    ensures i <= k <= |s| && AllIn(s[i..k], cut)
    ensures k < |s| ==> !cut(s[k])
    decreases |s| - i
  {
    if i < |s| && cut(s[i]) then
      var k := SkipForward(s, cut, i + 1);
      assert s[i..k] == [s[i]] + s[i + 1..k];
      k
    else
      i
  }

  /** The start of the run of cut-set characters that ends at `i`, looking
      no further back than `lo`. */
  function SkipBackward(s: string, cut: char -> bool, lo: nat, i: nat): (k: nat)
    requires lo <= i <= |s|
    ensures lo <= k <= i && AllIn(s[k..i], cut)
    ensures k > lo ==> !cut(s[k - 1])
    decreases i - lo
  {
    if i > lo && cut(s[i - 1]) then
      var k := SkipBackward(s, cut, lo, i - 1);
      assert s[k..i] == s[k..i - 1] + [s[i - 1]];
      k
    else
      i
  }

  /** Go's `strings.TrimFunc`: drops the leading cut-set characters, then
      the trailing ones of what is left, leaving a result that is bare at
      both ends. */
  function Trim(s: string, cut: char -> bool): (r: string)
    ensures |r| <= |s| && Bare(r, cut)
  {
    var a := SkipForward(s, cut, 0);
    var b := SkipBackward(s, cut, a, |s|);
    s[a..b]
  }

  /** The trimmed text is a middle stretch of `s`: what comes before and
      after it consists of cut-set characters only. */
  lemma TrimShape(s: string, cut: char -> bool) returns (pre: string, post: string)
    ensures s == pre + Trim(s, cut) + post
    ensures AllIn(pre, cut) && AllIn(post, cut)
  {
    var a := SkipForward(s, cut, 0);
    var b := SkipBackward(s, cut, a, |s|);
    pre, post := s[0..a], s[b..|s|];
    assert s == pre + s[a..b] + post;
  }

  /** Go's `strings.TrimSpace`. */
  function TrimSpace(s: string): string
  {
    Trim(s, IsSpace)
  }

  /** Go's `strings.Trim(s, "\n")`. */
  function TrimNewlines(s: string): string
  {
    Trim(s, IsNewline)
  }

  /** Trimming is determined by the shape of its input: whatever bare
      middle is surrounded by cut-set padding is what comes out. */
  lemma TrimOfPadded(p: string, m: string, q: string, cut: char -> bool)
    requires AllIn(p, cut) && AllIn(q, cut) && Bare(m, cut)
    ensures Trim(p + m + q, cut) == m
  {
    var x := p + m + q;
    var lo, hi := |p|, |p| + |m|;
    forall j | 0 <= j < lo ensures cut(x[j]) {
      assert x[j] == p[j];
    }
    forall j | hi <= j < |x| ensures cut(x[j]) {
      assert x[j] == q[j - hi];
    }
    var a := SkipForward(x, cut, 0);
    forall j | 0 <= j < a ensures cut(x[j]) {
      assert x[0..a][j] == x[j];
    }
    if |m| > 0 {
      assert !cut(x[lo]) && !cut(x[hi - 1]) by {
        assert x[lo] == m[0] && x[hi - 1] == m[|m| - 1];
      }
      assert a == lo;
      var b := SkipBackward(x, cut, a, |x|);
      forall j | b <= j < |x| ensures cut(x[j]) {
        assert x[b..|x|][j - b] == x[j];
      }
      assert b == hi;
      assert x[lo..hi] == m;
    } else {
      assert a == |x|;
    }
  }

  /** Text that is already bare comes out of trimming unchanged. */
  lemma TrimOfBare(s: string, cut: char -> bool)
    ensures Bare(s, cut) ==> Trim(s, cut) == s
  {
    if Bare(s, cut) {
      assert [] + s + [] == s;
      TrimOfPadded([], s, [], cut);
    }
  }

  /** Cut-set padding around the input does not change the trimmed result. */
  lemma TrimIgnoresPadding(w1: string, s: string, w2: string, cut: char -> bool)
    requires AllIn(w1, cut) && AllIn(w2, cut)
    ensures Trim(w1 + s + w2, cut) == Trim(s, cut)
  {
    var pre, post := TrimShape(s, cut);
    TrimOfNestedPadding(w1, pre, Trim(s, cut), post, w2, cut);
  }

  /** Two layers of cut-set padding around a bare middle trim away together. */
  lemma TrimOfNestedPadding(w1: string, pre: string, m: string, post: string, w2: string, cut: char -> bool)
    requires AllIn(w1, cut) && AllIn(pre, cut) && AllIn(post, cut) && AllIn(w2, cut) && Bare(m, cut)
    ensures Trim(w1 + (pre + m + post) + w2, cut) == m
  {
    AllInConcat(w1, pre, cut);
    AllInConcat(post, w2, cut);
    Regroup(w1, pre, m, post, w2);
    TrimOfPadded(w1 + pre, m, post + w2, cut);
  }

  lemma AllInConcat(a: string, b: string, cut: char -> bool)
    requires AllIn(a, cut) && AllIn(b, cut)
    ensures AllIn(a + b, cut)
  {
    forall j | 0 <= j < |a + b| ensures cut((a + b)[j]) {
      if j < |a| {
        assert (a + b)[j] == a[j];
      } else {
        assert (a + b)[j] == b[j - |a|];
      }
    }
  }

  /** Regrouping a five-part concatenation (sequence concatenation is
      associative). */
  lemma Regroup(a: string, b: string, c: string, d: string, e: string)
    ensures a + (b + c + d) + e == (a + b) + c + (d + e)
  {
  }

  /** Trimming twice is trimming once. */
  lemma TrimIdempotent(s: string, cut: char -> bool)
    ensures Trim(Trim(s, cut), cut) == Trim(s, cut)
  {
    var r := Trim(s, cut);
    assert [] + r + [] == r;
    TrimOfPadded([], r, [], cut);
  }

  /** A character outside the cut-set survives trimming. */
  lemma TrimKeeps(s: string, cut: char -> bool, i: int)
    requires 0 <= i < |s| && !cut(s[i])
    ensures s[i] in Trim(s, cut)
  {
    var pre, post := TrimShape(s, cut);
    MiddleKeeps(pre, Trim(s, cut), post, cut, i);
  }

  /** With cut-set padding on both sides, a character outside the cut-set
      lies in the middle part. */
  lemma MiddleKeeps(pre: string, m: string, post: string, cut: char -> bool, i: int)
    requires AllIn(pre, cut) && AllIn(post, cut)
    requires 0 <= i < |pre + m + post| && !cut((pre + m + post)[i])
    ensures (pre + m + post)[i] in m
  {
    var x := pre + m + post;
    forall j | 0 <= j < |pre| ensures x[j] == pre[j] {
    }
    forall j | |pre| + |m| <= j < |x| ensures x[j] == post[j - |pre| - |m|] {
    }
    assert |pre| <= i < |pre| + |m|;
    assert x[i] == m[i - |pre|];
  }

  /** `sub` appears in `s` starting at position `i`. */
  predicate OccursAt(s: string, sub: string, i: int)
  {
    0 <= i && i + |sub| <= |s| && s[i..i + |sub|] == sub
  }

  /** The first occurrence of `sub` in `s` at or after `from`, or -1. */
  function IndexFrom(s: string, sub: string, from: nat): (r: int)
    requires from <= |s|
    ensures r == -1 || (from <= r && OccursAt(s, sub, r))
    ensures forall i :: from <= i && (r == -1 || i < r) ==> !OccursAt(s, sub, i)
    decreases |s| - from
  {
    if from + |sub| > |s| then -1
    else if s[from..from + |sub|] == sub then from
    else IndexFrom(s, sub, from + 1)
  }

  /** Go's `strings.Index`: the position of the first occurrence of `sub`,
      or -1 when there is none. */
  function Index(s: string, sub: string): (r: int)
    ensures r == -1 <==> forall i :: !OccursAt(s, sub, i)
    ensures r != -1 ==> OccursAt(s, sub, r) && forall i :: i < r ==> !OccursAt(s, sub, i)
  {
    IndexFrom(s, sub, 0)
  }

  /** Go's `strings.Contains`. */
  function Contains(s: string, sub: string): (found: bool)
    ensures found <==> exists i :: OccursAt(s, sub, i)
  {
    Index(s, sub) != -1
  }

  /** A string that lacks the first character of `sub` does not contain it. */
  lemma AbsentLead(s: string, sub: string)
    requires |sub| > 0 && sub[0] !in s
    ensures !Contains(s, sub)
  {
    forall i ensures !OccursAt(s, sub, i) {
      if 0 <= i && i + |sub| <= |s| {
        assert s[i..i + |sub|][0] == s[i];
        assert s[i] in s;
      }
    }
  }
}
