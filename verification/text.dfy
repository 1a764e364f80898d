/** String and sequence helpers standing in for the JavaScript built-ins the
    UI code calls: `toLowerCase`, `includes`, `trim`, `startsWith`,
    `Array.prototype.join`, and the `Array.from(new Set(xs))` idiom for
    order-preserving de-duplication. `Split` is not called by the UI code: it
    is the reader of joined text that the round-trip lemmas use. */
module Text {

  // ---------------------------------------------------------------------------
  // Case folding

  /** Lower-cases the ASCII letters A-Z and leaves every other character alone. */
  function LowerChar(c: char): char {
    if 'A' <= c <= 'Z' then (c as int + 32) as char else c
  }

  function Lower(s: string): (r: string)
    ensures |r| == |s|
    ensures forall i :: 0 <= i < |s| ==> r[i] == LowerChar(s[i])
  {
    seq(|s|, i requires 0 <= i < |s| => LowerChar(s[i]))
  }

  // ---------------------------------------------------------------------------
  // Prefix and substring tests

  /** `String.prototype.startsWith`: the first `|prefix|` characters of `s`
      are those of `prefix`. */
  function StartsWith(s: string, prefix: string): (r: bool)
    ensures r <==> |prefix| <= |s| && forall i :: 0 <= i < |prefix| ==> s[i] == prefix[i]
    ensures r <==> OccursAt(s, prefix, 0)
  {
    |prefix| <= |s| && s[..|prefix|] == prefix
  }

  /** `needle` sits in `s` at offset `i`. */
  predicate OccursAt(s: string, needle: string, i: nat) {
    i + |needle| <= |s| && s[i..i + |needle|] == needle
  }

  /** Scans offsets `i`, `i+1`, ... for an occurrence of `needle`. */
  function IncludesFrom(s: string, needle: string, i: nat): (r: bool)
    ensures r <==> exists j :: i <= j && OccursAt(s, needle, j)
    decreases |s| - i
  {
    if i + |needle| > |s| then false
    else if s[i..i + |needle|] == needle then assert OccursAt(s, needle, i); true
    else IncludesFrom(s, needle, i + 1)
  }

  /** `String.prototype.includes`: some offset of `s` holds `needle`. */
  function Includes(s: string, needle: string): (r: bool)
    ensures r <==> exists j :: OccursAt(s, needle, j)
  {
    IncludesFrom(s, needle, 0)
  }

  // ---------------------------------------------------------------------------
  // Trimming

  /** The characters `String.prototype.trim` removes: ECMAScript WhiteSpace
      (tab, vertical tab, form feed, space, no-break space, byte order mark and
      the Unicode space separators) and LineTerminator (LF, CR, LS, PS). */
  predicate IsWhiteSpace(c: char) {
    c == '\t' || c == '\n' || c == '\U{000B}' || c == '\U{000C}' || c == '\r' || c == ' '
    || c == '\U{00A0}' || c == '\U{1680}' || ('\U{2000}' <= c <= '\U{200A}')
    || c == '\U{2028}' || c == '\U{2029}' || c == '\U{202F}' || c == '\U{205F}'
    || c == '\U{3000}' || c == '\U{FEFF}'
  }

  predicate AllWhiteSpace(s: string) {
    forall i :: 0 <= i < |s| ==> IsWhiteSpace(s[i])
  }

  /** The end of the white space that starts at offset `i`. */
  function SkipWhiteSpace(s: string, i: nat): (n: nat)
    requires i <= |s|
    ensures i <= n <= |s|
    ensures forall k :: i <= k < n ==> IsWhiteSpace(s[k])
    ensures n < |s| ==> !IsWhiteSpace(s[n])
    decreases |s| - i
  {
    if i < |s| && IsWhiteSpace(s[i]) then SkipWhiteSpace(s, i + 1) else i
  }

  /** The start of the white space that ends at offset `j`. */
  function SkipWhiteSpaceBack(s: string, j: nat): (m: nat)
    requires j <= |s|
    ensures m <= j
    ensures forall k :: m <= k < j ==> IsWhiteSpace(s[k])
    ensures m > 0 ==> !IsWhiteSpace(s[m - 1])
  {
    if j > 0 && IsWhiteSpace(s[j - 1]) then SkipWhiteSpaceBack(s, j - 1) else j
  }

  /** The number of white-space characters `s` starts with. */
  function LeadingWhiteSpace(s: string): (n: nat)
    ensures n <= |s|
    ensures AllWhiteSpace(s[..n])
    ensures n < |s| ==> !IsWhiteSpace(s[n])
  {
    SkipWhiteSpace(s, 0)
  }

  /** `String.prototype.trim`: the contiguous middle of `s` left after
      removing the white space at both ends. */
  function Trim(s: string): (r: string)
    ensures |r| <= |s|
    ensures var n := LeadingWhiteSpace(s);
            && n + |r| <= |s| && s[n..n + |r|] == r
            && forall k :: n + |r| <= k < |s| ==> IsWhiteSpace(s[k])
    ensures r == "" || (!IsWhiteSpace(r[0]) && !IsWhiteSpace(r[|r| - 1]))
  {
    var n := LeadingWhiteSpace(s);
    var m := SkipWhiteSpaceBack(s, |s|);
    if m <= n then "" else s[n..m]
  }

  /** A string trims to the empty string exactly when it is all white space. */
  lemma TrimEmptyIff(s: string)
    ensures Trim(s) == "" <==> AllWhiteSpace(s)
  {
    var r := Trim(s);
    var n := LeadingWhiteSpace(s);
    if r == "" {
      forall k | 0 <= k < |s|
        ensures IsWhiteSpace(s[k])
      {
        if k < n {
          assert s[..n][k] == s[k];
        }
      }
    } else {
      assert r[0] == s[n];
    }
  }

  // ---------------------------------------------------------------------------
  // Join and split

  /** `Array.prototype.join(sep)` on strings: the parts with `sep` between
      them. No parts give the empty string; the text starts with the first
      part and holds the separator as soon as there are two parts. */
  function Join(parts: seq<string>, sep: char): (r: string)
    ensures |parts| == 0 ==> r == ""
    ensures |parts| == 1 ==> r == parts[0]
    ensures |parts| > 0 ==> StartsWith(r, parts[0])
    ensures |parts| > 1 ==> sep in r
  {
    if |parts| == 0 then ""
    else if |parts| == 1 then parts[0]
    else
      var r := parts[0] + [sep] + Join(parts[1..], sep);
      assert r[..|parts[0]|] == parts[0];
      assert r[|parts[0]|] == sep;
      r
  }

  /** Index of the first `c` in `s`. */
  function IndexOf(s: string, c: char): (i: nat)
    requires c in s
    ensures i < |s| && s[i] == c && c !in s[..i]
  {
    if s[0] == c then 0 else 1 + IndexOf(s[1..], c)
  }

  /** `String.prototype.split(sep)` for a one-character separator. */
  function Split(s: string, sep: char): (r: seq<string>)
    ensures |r| > 0
    ensures forall i :: 0 <= i < |r| ==> sep !in r[i]
    decreases |s|
  {
    if sep in s then
      var i := IndexOf(s, sep);
      [s[..i]] + Split(s[i + 1..], sep)
    else [s]
  }

  /** A character that occurs in no part and is not the separator does not
      occur in the joined string. */
  lemma {:induction false} JoinAvoids(parts: seq<string>, sep: char, c: char)
    requires c != sep
    requires forall i :: 0 <= i < |parts| ==> c !in parts[i]
    ensures c !in Join(parts, sep)
  {
    if |parts| > 1 {
      JoinAvoids(parts[1..], sep, c);
      assert Join(parts, sep) == parts[0] + [sep] + Join(parts[1..], sep);
    }
  }

  /** Splitting a join recovers the parts, provided none contains the separator. */
  lemma {:induction false} SplitJoin(parts: seq<string>, sep: char)
    requires |parts| > 0
    requires forall i :: 0 <= i < |parts| ==> sep !in parts[i]
    ensures Split(Join(parts, sep), sep) == parts
  {
    if |parts| > 1 {
      var p := parts[0];
      var rest := Join(parts[1..], sep);
      var s := p + [sep] + rest;
      assert Join(parts, sep) == s;
      assert s[|p|] == sep;
      assert sep in s;
      var i := IndexOf(s, sep);
      assert i == |p|;
      assert s[..i] == p;
      assert s[i + 1..] == rest;
      SplitJoin(parts[1..], sep);
    }
  }

  /** Joining a split gives the original string back. */
  lemma {:induction false} JoinSplit(s: string, sep: char)
    ensures Join(Split(s, sep), sep) == s
    decreases |s|
  {
    if sep in s {
      var i := IndexOf(s, sep);
      JoinSplit(s[i + 1..], sep);
      var tail := Split(s[i + 1..], sep);
      assert Split(s, sep) == [s[..i]] + tail;
      assert Join(Split(s, sep), sep) == s[..i] + [sep] + Join(tail, sep);
      assert s == s[..i] + [s[i]] + s[i + 1..];
    }
  }

  // ---------------------------------------------------------------------------
  // Order-preserving subsequences and de-duplication

  /** `a` is `b` with some elements removed, the rest kept in order. */
  predicate SubseqOf<T(==)>(a: seq<T>, b: seq<T>)
    decreases |b|
  {
    if |a| == 0 then true
    else if |b| == 0 then false
    else if a[0] == b[0] then SubseqOf(a[1..], b[1..])
    else SubseqOf(a, b[1..])
  }

  predicate NoDuplicates<T(==)>(xs: seq<T>) {
    forall i, j :: 0 <= i < j < |xs| ==> xs[i] != xs[j]
  }

  /** Reference definition: the elements of `xs` at the positions where they
      occur for the first time, in that order. */
  function FirstOccurrences(xs: seq<string>): (r: seq<string>)
    ensures NoDuplicates(r)
    ensures forall x :: x in r <==> x in xs
  {
    if |xs| == 0 then []
    else
      var init := xs[..|xs| - 1];
      var last := xs[|xs| - 1];
      assert forall x :: x in xs <==> x in init || x == last;
      FirstOccurrences(init) + (if last in init then [] else [last])
  }

  /** `Array.from(new Set(xs))`: walk `xs`, appending each element not yet
      `seen` (a Set iterates in insertion order). */
  function Dedup(xs: seq<string>, seen: seq<string>): (r: seq<string>)
    requires NoDuplicates(seen)
    ensures NoDuplicates(r)
    ensures |seen| <= |r| && r[..|seen|] == seen
    ensures forall x :: x in r <==> x in seen || x in xs
  {
    if |xs| == 0 then seen
    else if xs[0] in seen then Dedup(xs[1..], seen)
    else Dedup(xs[1..], seen + [xs[0]])
  }

  /** The Set-insertion walk yields exactly the first occurrences, in order. */
  lemma DedupIsFirstOccurrences(xs: seq<string>)
    ensures Dedup(xs, []) == FirstOccurrences(xs)
  {
    DedupFrom(xs, 0);
    assert xs[0..] == xs;
    assert xs[..|xs|] == xs;
  }

  lemma {:induction false} DedupFrom(xs: seq<string>, k: nat)
    requires k <= |xs|
    ensures Dedup(xs[k..], FirstOccurrences(xs[..k])) == FirstOccurrences(xs)
    decreases |xs| - k
  {
    if k == |xs| {
      assert xs[..k] == xs;
    } else {
      var seen := FirstOccurrences(xs[..k]);
      var next := FirstOccurrences(xs[..k + 1]);
      assert xs[..k + 1][..k] == xs[..k];
      assert xs[..k + 1][k] == xs[k];
      assert xs[k] in seen <==> xs[k] in xs[..k];
      assert xs[k..][0] == xs[k] && xs[k..][1..] == xs[k + 1..];
      if xs[k] in xs[..k] {
        assert next == seen;
      } else {
        assert next == seen + [xs[k]];
      }
      assert Dedup(xs[k..], seen) == Dedup(xs[k + 1..], next);
      DedupFrom(xs, k + 1);
    }
  }
}
