/** `replace_all` of the metric plugin's `main.cpp`: every occurrence of a
    pattern in a string replaced, searching on past each inserted text. */
module Replace {
  import opened Wrappers

  /** `pattern` occurs in s starting at index k. */
  predicate OccursAt(s: string, pattern: string, k: nat)
  {
    k + |pattern| <= |s| && s[k..k + |pattern|] == pattern
  }

  /** `std::string::find(pattern, pos)`: the first index at or after pos
      where pattern occurs, or None for `npos`. */
  function Find(s: string, pattern: string, pos: nat): (r: Option<nat>)
    decreases |s| - pos
    ensures r.Some? ==> pos <= r.value && OccursAt(s, pattern, r.value)
    ensures r.Some? ==> forall k :: pos <= k < r.value ==> !OccursAt(s, pattern, k)
    ensures r.None? ==> forall k :: pos <= k ==> !OccursAt(s, pattern, k)
  {
    if pos + |pattern| > |s| then None
    else if OccursAt(s, pattern, pos) then Some(pos)
    else Find(s, pattern, pos + 1)
  }

  /** s[pos..] with every occurrence of a non-empty pattern, taken left to
      right without overlaps, replaced; the inserted text is never searched
      again. */
  function ReplacedAt(s: string, pattern: string, replacement: string, pos: nat): string
    requires |pattern| > 0 && pos <= |s|
    decreases |s| - pos
  {
    if pos + |pattern| > |s| then s[pos..]
    else if OccursAt(s, pattern, pos) then replacement + ReplacedAt(s, pattern, replacement, pos + |pattern|)
    else [s[pos]] + ReplacedAt(s, pattern, replacement, pos + 1)
  }

  /** The whole of s with every occurrence replaced. */
  function Replaced(s: string, pattern: string, replacement: string): string
    requires |pattern| > 0
  {
    ReplacedAt(s, pattern, replacement, 0)
  }

  /** What the replacement loop leaves when its search starts at `start`:
      nothing before start is replaced, nothing at all when start lies past
      the end. */
  function ReplacedFrom(s: string, pattern: string, replacement: string, start: nat): string
    requires |pattern| > 0
  {
    if start <= |s| then s[..start] + ReplacedAt(s, pattern, replacement, start) else s
  }

  /** One step of ReplacedAt at a position where the pattern fits. */
  lemma UnfoldStep(s: string, pattern: string, replacement: string, pos: nat, next: nat)
    requires |pattern| > 0 && pos + |pattern| <= |s|
    requires next == if OccursAt(s, pattern, pos) then pos + |pattern| else pos + 1
    ensures ReplacedAt(s, pattern, replacement, pos) ==
      (if OccursAt(s, pattern, pos) then replacement else [s[pos]]) + ReplacedAt(s, pattern, replacement, next)
  {
  }

  lemma AppendToThree<T>(x: seq<T>, a: seq<T>, b: seq<T>, c: seq<T>)
    ensures x + (a + b + c) == x + a + b + c
  {
  }

  /** The first n elements of s[x..], and what follows them. */
  lemma SuffixParts<T>(s: seq<T>, x: nat, n: nat)
    requires x + n <= |s|
    ensures s[x..][..n] == s[x..x + n] && s[x..][n..] == s[x + n..]
    ensures n > 0 ==> s[x..][0] == s[x]
  {
  }

  /** The pieces of s with s[i..i + n] replaced by t. */
  lemma SpliceParts<T>(s: seq<T>, i: nat, n: nat, t: seq<T>)
    requires i + n <= |s|
    ensures (s[..i] + t + s[i + n..])[..i + |t|] == s[..i] + t
    ensures (s[..i] + t + s[i + n..])[i + |t|..] == s[i + n..]
  {
  }

  lemma PrefixJoin<T>(s: seq<T>, j: nat, i: nat)
    requires j <= i <= |s|
    ensures s[..j] + s[j..i] == s[..i]
  {
  }

  /** Where the first occurrence at or after pos lies, s[pos..] is kept up
      to it, the replacement stands for it, and the rest is replaced on
      from its end. */
  predicate SplitsAtFind(s: string, pattern: string, replacement: string, pos: nat)
    requires |pattern| > 0 && pos <= |s|
  {
    match Find(s, pattern, pos)
    case None => ReplacedAt(s, pattern, replacement, pos) == s[pos..]
    case Some(i) =>
      i + |pattern| <= |s| &&
      ReplacedAt(s, pattern, replacement, pos) ==
        s[pos..i] + replacement + ReplacedAt(s, pattern, replacement, i + |pattern|)
  }

  lemma {:induction false} FindSplitsReplaced(s: string, pattern: string, replacement: string, pos: nat)
    requires |pattern| > 0 && pos <= |s|
    decreases |s| - pos
    ensures Find(s, pattern, pos).None? ==> ReplacedAt(s, pattern, replacement, pos) == s[pos..]
    ensures Find(s, pattern, pos).Some? ==>
      var i := Find(s, pattern, pos).value;
      i + |pattern| <= |s| &&
      ReplacedAt(s, pattern, replacement, pos) ==
        s[pos..i] + replacement + ReplacedAt(s, pattern, replacement, i + |pattern|)
  {
    FindSplits(s, pattern, replacement, pos);
  }

  lemma {:induction false} FindSplits(s: string, pattern: string, replacement: string, pos: nat)
    requires |pattern| > 0 && pos <= |s|
    decreases |s| - pos
    ensures SplitsAtFind(s, pattern, replacement, pos)
  {
    if pos + |pattern| > |s| {
    } else if OccursAt(s, pattern, pos) {
      MatchHere(s, pattern, replacement, pos);
    } else {
      FindSplits(s, pattern, replacement, pos + 1);
      SkipStep(s, pattern, replacement, pos);
    }
  }

  /** A position without an occurrence keeps the split of the next one. */
  lemma SkipStep(s: string, pattern: string, replacement: string, pos: nat)
    requires |pattern| > 0 && pos + |pattern| <= |s| && !OccursAt(s, pattern, pos)
    requires SplitsAtFind(s, pattern, replacement, pos + 1)
    ensures SplitsAtFind(s, pattern, replacement, pos)
  {
    var f := Find(s, pattern, pos + 1);
    assert Find(s, pattern, pos) == f;
    if f.Some? {
      SkipBeforeMatch(s, pattern, replacement, pos, f.value);
    } else {
      SkipToEnd(s, pattern, replacement, pos);
    }
  }

  /** An occurrence at pos is the one found and the first one replaced. */
  lemma MatchHere(s: string, pattern: string, replacement: string, pos: nat)
    requires |pattern| > 0 && OccursAt(s, pattern, pos)
    ensures Find(s, pattern, pos) == Some(pos)
    ensures ReplacedAt(s, pattern, replacement, pos) ==
      s[pos..pos] + replacement + ReplacedAt(s, pattern, replacement, pos + |pattern|)
  {
    assert s[pos..pos] + replacement == replacement;
  }

  /** A position without an occurrence, before the one found, is kept. */
  lemma SkipBeforeMatch(s: string, pattern: string, replacement: string, pos: nat, i: nat)
    requires |pattern| > 0 && pos < i && i + |pattern| <= |s| && !OccursAt(s, pattern, pos)
    requires ReplacedAt(s, pattern, replacement, pos + 1) ==
      s[pos + 1..i] + replacement + ReplacedAt(s, pattern, replacement, i + |pattern|)
    ensures ReplacedAt(s, pattern, replacement, pos) ==
      s[pos..i] + replacement + ReplacedAt(s, pattern, replacement, i + |pattern|)
  {
    UnfoldStep(s, pattern, replacement, pos, pos + 1);
    PrependSlice(s, pos, i, replacement, ReplacedAt(s, pattern, replacement, i + |pattern|));
  }

  /** A position without an occurrence, with none after it, is kept. */
  lemma SkipToEnd(s: string, pattern: string, replacement: string, pos: nat)
    requires |pattern| > 0 && pos + |pattern| <= |s| && !OccursAt(s, pattern, pos)
    requires ReplacedAt(s, pattern, replacement, pos + 1) == s[pos + 1..]
    ensures ReplacedAt(s, pattern, replacement, pos) == s[pos..]
  {
    UnfoldStep(s, pattern, replacement, pos, pos + 1);
    assert [s[pos]] + s[pos + 1..] == s[pos..];
  }

  lemma PrependSlice<T>(s: seq<T>, pos: nat, i: nat, t: seq<T>, rest: seq<T>)
    requires pos < i <= |s|
    ensures [s[pos]] + (s[pos + 1..i] + t + rest) == s[pos..i] + t + rest
  {
    assert s[pos..i] == [s[pos]] + s[pos + 1..i];
  }

  /** The replacement of a suffix depends only on that suffix. */
  lemma {:induction false} ReplacedAtSuffix(a: string, x: nat, b: string, y: nat, pattern: string, replacement: string)
    requires |pattern| > 0 && x <= |a| && y <= |b| && a[x..] == b[y..]
    decreases |a| - x
    ensures ReplacedAt(a, pattern, replacement, x) == ReplacedAt(b, pattern, replacement, y)
  {
    assert |a| - x == |b| - y;
    if x + |pattern| > |a| {
      assert ReplacedAt(a, pattern, replacement, x) == a[x..];
      assert ReplacedAt(b, pattern, replacement, y) == b[y..];
    } else {
      SuffixParts(a, x, |pattern|);
      SuffixParts(b, y, |pattern|);
      assert OccursAt(a, pattern, x) == OccursAt(b, pattern, y);
      var n := if OccursAt(a, pattern, x) then |pattern| else 1;
      var x', y' := x + n, y + n;
      SuffixParts(a, x, n);
      SuffixParts(b, y, n);
      ReplacedAtSuffix(a, x', b, y', pattern, replacement);
      UnfoldStep(a, pattern, replacement, x, x');
      UnfoldStep(b, pattern, replacement, y, y');
    }
  }

  /** `replace_all` as written: `start_pos` is read before it is ever
      assigned, so the first search starts wherever that indeterminate
      value points; `start` stands for it. After a replacement the search
      resumes past the inserted text. */
  method ReplaceAllFrom(str: string, pattern: string, replacement: string, start: nat) returns (r: string)
    requires |pattern| > 0
    ensures r == ReplacedFrom(str, pattern, replacement, start)
  {
    r := str;
    var pos: nat := start;
    var found := Find(r, pattern, pos);
    while found.Some?
      invariant found == Find(r, pattern, pos)
      invariant pos <= |r| ==>
        r[..pos] + ReplacedAt(r, pattern, replacement, pos) == ReplacedFrom(str, pattern, replacement, start)
      invariant pos > |r| ==> r == ReplacedFrom(str, pattern, replacement, start)
      decreases |r| - pos
    {
      var i := found.value;
      FindSplitsReplaced(r, pattern, replacement, pos);
      var next := r[..i] + replacement + r[i + |pattern|..];
      var nextPos := i + |replacement|;
      SpliceParts(r, i, |pattern|, replacement);
      PrefixJoin(r, pos, i);
      ReplacedAtSuffix(next, nextPos, r, i + |pattern|, pattern, replacement);
      var rest := ReplacedAt(r, pattern, replacement, i + |pattern|);
      AppendToThree(r[..pos], r[pos..i], replacement, rest);
      r := next;
      pos := nextPos;
      found := Find(r, pattern, pos);
    }
    if pos <= |r| {
      FindSplitsReplaced(r, pattern, replacement, pos);
      assert r[..pos] + r[pos..] == r;
    }
  }

  /** `replace_all` with `start_pos` starting at 0, as intended: every
      occurrence is replaced. */
  method ReplaceAll(str: string, pattern: string, replacement: string) returns (r: string)
    requires |pattern| > 0
    ensures r == Replaced(str, pattern, replacement)
  {
    r := ReplaceAllFrom(str, pattern, replacement, 0);
    assert str[..0] + ReplacedAt(str, pattern, replacement, 0) == Replaced(str, pattern, replacement);
  }

  /** The indeterminate start can skip an occurrence: searching the selector
      "a.*b", which does reach `replace_all`, from index 2 leaves its dot
      unescaped, where the intended call escapes it. */
  lemma AsWrittenLeavesDot()
    ensures ReplacedFrom("a.*b", ".", "\\.", 2) == "a.*b"
    ensures Replaced("a.*b", ".", "\\.") == "a\\.*b"
  {
    assert !OccursAt("a.*b", ".", 0) by { assert "a.*b"[0..1] == "a"; }
    assert OccursAt("a.*b", ".", 1) by { assert "a.*b"[1..2] == "."; }
    assert !OccursAt("a.*b", ".", 2) by { assert "a.*b"[2..3] == "*"; }
    assert !OccursAt("a.*b", ".", 3) by { assert "a.*b"[3..4] == "b"; }
    assert ReplacedAt("a.*b", ".", "\\.", 4) == [];
    assert ReplacedAt("a.*b", ".", "\\.", 3) == "b";
    assert ReplacedAt("a.*b", ".", "\\.", 2) == "*b";
    assert "a.*b"[..2] + "*b" == "a.*b";
    assert ReplacedAt("a.*b", ".", "\\.", 1) == "\\.*b";
  }

  /** Replacing a pattern by itself changes nothing. */
  lemma {:induction false} ReplacedByItself(s: string, pattern: string, pos: nat)
    requires |pattern| > 0 && pos <= |s|
    decreases |s| - pos
    ensures ReplacedAt(s, pattern, pattern, pos) == s[pos..]
  {
    if pos + |pattern| <= |s| {
      var next := if OccursAt(s, pattern, pos) then pos + |pattern| else pos + 1;
      ReplacedByItself(s, pattern, next);
      UnfoldStep(s, pattern, pattern, pos, next);
      SuffixParts(s, pos, next - pos);
      assert s[pos..][..next - pos] + s[pos..][next - pos..] == s[pos..];
    }
  }

  /** Each character c of s replaced by `replacement`, every other
      character kept: a per-character reading of single-character
      replacement. */
  function Substituted(s: string, c: char, replacement: string): string
    decreases |s|
  {
    if s == [] then []
    else (if s[0] == c then replacement else [s[0]]) + Substituted(s[1..], c, replacement)
  }

  /** Replacing a one-character pattern is substituting that character,
      even when the replacement contains it. */
  lemma {:induction false} ReplacedSingleChar(s: string, c: char, replacement: string, pos: nat)
    requires pos <= |s|
    decreases |s| - pos
    ensures ReplacedAt(s, [c], replacement, pos) == Substituted(s[pos..], c, replacement)
  {
    if pos < |s| {
      var next := pos + 1;
      ReplacedSingleChar(s, c, replacement, next);
      assert OccursAt(s, [c], pos) <==> s[pos] == c by {
        assert s[pos..pos + 1] == [s[pos]];
      }
      UnfoldStep(s, [c], replacement, pos, next);
      SuffixParts(s, pos, 1);
    }
  }

  /** Substitution distributes over concatenation. */
  lemma {:induction false} SubstitutedAppend(a: string, b: string, c: char, replacement: string)
    decreases |a|
    ensures Substituted(a + b, c, replacement) == Substituted(a, c, replacement) + Substituted(b, c, replacement)
  {
    if a != [] {
      assert (a + b)[1..] == a[1..] + b;
      SubstitutedAppend(a[1..], b, c, replacement);
    } else {
      assert a + b == b;
    }
  }
}
