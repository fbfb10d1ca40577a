/**
 * String searching, case folding, trimming and splitting: the small part of
 * JavaScript's string and regular-expression library that the question
 * normaliser uses, written as explicit searches over `seq<char>`.
 *
 * `\s` and `String.prototype.trim` are restricted to ASCII whitespace, and
 * case folding (`toLowerCase`, `toUpperCase`, the `i` flag) to ASCII letters.
 */
module Text {
  import opened Seqs

  /** ASCII whitespace: space, tab, line feed, vertical tab, form feed, carriage return. */
  predicate IsSpace(c: char) {
    c == ' ' || c == '\t' || c == '\n' || c == '\U{000B}' || c == '\U{000C}' || c == '\r'
  }

  function LowerChar(c: char): char {
    if 'A' <= c <= 'Z' then (c as int + 32) as char else c
  }

  function UpperChar(c: char): char {
    if 'a' <= c <= 'z' then (c as int - 32) as char else c
  }

  /** `toLowerCase`, on ASCII letters. */
  function Lower(s: string): (r: string)
    ensures |r| == |s|
    ensures forall i :: 0 <= i < |s| ==> r[i] == LowerChar(s[i])
  {
    Map(s, LowerChar)
  }

  /** `pat` occurs in `s` at position `i`. */
  predicate StartsWithAt(s: string, i: nat, pat: string) {
    i + |pat| <= |s| && s[i..i + |pat|] == pat
  }

  /** `pat`, written in lower case, occurs in `s` at position `i` ignoring ASCII case. */
  predicate StartsWithCiAt(s: string, i: nat, pat: string) {
    i + |pat| <= |s| && Lower(s[i..i + |pat|]) == pat
  }

  /** The first occurrence of `pat` in `s` at or after `from`. */
  function FindFrom(s: string, pat: string, from: nat): (r: Option<nat>)
    ensures r.Some? ==> from <= r.value && StartsWithAt(s, r.value, pat)
    ensures r.Some? ==> forall j :: from <= j < r.value ==> !StartsWithAt(s, j, pat)
    ensures r.None? ==> forall j: nat :: from <= j ==> !StartsWithAt(s, j, pat)
  {
    var hit := (j: nat) => StartsWithAt(s, j, pat);
    assert forall j: nat :: hit(j) <==> StartsWithAt(s, j, pat);
    FirstFrom(from, |s| + 1, hit)
  }

  /** `s.includes(pat)`. */
  function Contains(s: string, pat: string): (b: bool)
    ensures b <==> exists j: nat :: StartsWithAt(s, j, pat)
  {
    FindFrom(s, pat, 0).Some?
  }

  /** `s.toLowerCase().includes(pat)` for a lower-case `pat` is a case-insensitive search in `s`. */
  lemma LowerContains(s: string, pat: string)
    ensures Contains(Lower(s), Lower(pat)) <==> exists j: nat :: StartsWithCiAt(s, j, Lower(pat))
  {
    if Contains(Lower(s), Lower(pat)) {
      var j: nat :| StartsWithAt(Lower(s), j, Lower(pat));
      assert Lower(s)[j..j + |pat|] == Lower(s[j..j + |pat|]);
      assert StartsWithCiAt(s, j, Lower(pat));
    }
    if exists j: nat :: StartsWithCiAt(s, j, Lower(pat)) {
      var j: nat :| StartsWithCiAt(s, j, Lower(pat));
      assert Lower(s)[j..j + |pat|] == Lower(s[j..j + |pat|]);
      assert StartsWithAt(Lower(s), j, Lower(pat));
    }
  }

  /** The end of the run of whitespace that starts at `from` (a greedy `\s*`). */
  function SkipSpace(s: string, from: nat): (j: nat)
    requires from <= |s|
    ensures from <= j <= |s|
    ensures forall k :: from <= k < j ==> IsSpace(s[k])
    ensures j < |s| ==> !IsSpace(s[j])
  {
    var hit := (k: nat) => k < |s| && !IsSpace(s[k]);
    assert forall k :: from <= k < |s| ==> (hit(k) <==> !IsSpace(s[k]));
    match FirstFrom(from, |s|, hit)
    case None => |s|
    case Some(k) => k
  }

  /** The start of the run of whitespace that ends at `hi`, not going below `lo`. */
  function SkipSpaceBack(s: string, lo: nat, hi: nat): (j: nat)
    requires lo <= hi <= |s|
    decreases hi
    ensures lo <= j <= hi
    ensures forall k :: j <= k < hi ==> IsSpace(s[k])
    ensures lo < j ==> !IsSpace(s[j - 1])
  {
    if hi == lo || !IsSpace(s[hi - 1]) then hi
    else SkipSpaceBack(s, lo, hi - 1)
  }

  /** The bounds of `s` with leading and trailing whitespace removed. */
  function TrimBounds(s: string): (b: (nat, nat))
    ensures b.0 <= b.1 <= |s|
    ensures forall k :: 0 <= k < b.0 ==> IsSpace(s[k])
    ensures forall k :: b.1 <= k < |s| ==> IsSpace(s[k])
    ensures b.0 < b.1 ==> !IsSpace(s[b.0]) && !IsSpace(s[b.1 - 1])
  {
    var i := SkipSpace(s, 0);
    (i, SkipSpaceBack(s, i, |s|))
  }

  /** `s.trim()`. */
  function Trim(s: string): (r: string)
    ensures r == [] <==> forall k :: 0 <= k < |s| ==> IsSpace(s[k])
    ensures r != [] ==> !IsSpace(r[0]) && !IsSpace(r[|r| - 1])
  {
    var b := TrimBounds(s);
    s[b.0..b.1]
  }

  /** The lines joined back together with `sep` between consecutive ones (`lines.join(sep)`). */
  function Join(lines: seq<string>, sep: char): string
    requires |lines| >= 1
  {
    if |lines| == 1 then lines[0] else lines[0] + [sep] + Join(lines[1..], sep)
  }

  /** `s.split(sep)` for a one-character separator: at least one piece, none containing `sep`. */
  function Split(s: string, sep: char): (lines: seq<string>)
    decreases |s|
    ensures |lines| >= 1
    ensures forall i :: 0 <= i < |lines| ==> sep !in lines[i]
    ensures Join(lines, sep) == s
  {
    match FindFrom(s, [sep], 0)
    case None =>
      SeparatorFree(s, sep, |s|);
      assert s[..|s|] == s;
      [s]
    case Some(k) =>
      SeparatorFree(s, sep, k);
      assert s[k] == sep by { assert s[k..k + 1] == [sep]; }
      var rest := Split(s[k + 1..], sep);
      var lines := [s[..k]] + rest;
      assert lines[1..] == rest;
      assert s == s[..k] + [sep] + s[k + 1..];
      lines
  }

  /** No occurrence of the one-character pattern `[sep]` before `k` means no `sep` in `s[..k]`. */
  lemma SeparatorFree(s: string, sep: char, k: nat)
    requires k <= |s|
    requires forall j :: 0 <= j < k ==> !StartsWithAt(s, j, [sep])
    ensures sep !in s[..k]
  {
    forall j | 0 <= j < k ensures s[j] != sep {
      assert !StartsWithAt(s, j, [sep]);
      assert s[j..j + 1] == [s[j]];
    }
  }

  /** Splitting undoes joining when no line contains the separator. */
  lemma {:induction false} SplitJoin(lines: seq<string>, sep: char)
    requires |lines| >= 1
    requires forall i :: 0 <= i < |lines| ==> sep !in lines[i]
    ensures Split(Join(lines, sep), sep) == lines
  {
    var s := Join(lines, sep);
    var n := |lines[0]|;
    forall j | 0 <= j < n ensures !StartsWithAt(s, j, [sep]) {
      assert s[j] == lines[0][j];
    }
    if |lines| == 1 {
      forall j: nat ensures !StartsWithAt(s, j, [sep]) {
        if j < n { assert s[j..j + 1] == [s[j]]; }
      }
      assert FindFrom(s, [sep], 0).None?;
    } else {
      assert s == lines[0] + [sep] + Join(lines[1..], sep);
      assert StartsWithAt(s, n, [sep]);
      forall j | 0 <= j < n ensures !StartsWithAt(s, j, [sep]) {
        assert s[j..j + 1] == [lines[0][j]];
      }
      assert FindFrom(s, [sep], 0) == Some(n);
      assert s[..n] == lines[0];
      assert s[n + 1..] == Join(lines[1..], sep);
      SplitJoin(lines[1..], sep);
    }
  }

  /**
   * The regular expression `open(.*?)close` with the `s` flag can match with
   * the opening at `i` and the content ending at `k`.
   */
  predicate Enclosed(s: string, open: string, close: string, i: nat, k: nat) {
    StartsWithAt(s, i, open) && i + |open| <= k && StartsWithAt(s, k, close)
  }

  /**
   * `s.match(/open(.*?)close/s)`: the bounds of the captured content. The
   * match starts at the leftmost possible position and, from there, the lazy
   * group takes the shortest content after which `close` follows.
   */
  function Delimited(s: string, open: string, close: string): (m: Option<(nat, nat)>)
    ensures m.Some? ==> |open| <= m.value.0 && Enclosed(s, open, close, m.value.0 - |open|, m.value.1)
    ensures m.Some? ==> forall i: nat, k: nat :: Enclosed(s, open, close, i, k) ==>
                          m.value.0 - |open| < i || (m.value.0 - |open| == i && m.value.1 <= k)
    ensures m.None? ==> forall i: nat, k: nat :: !Enclosed(s, open, close, i, k)
  {
    match FindFrom(s, open, 0)
    case None => None
    case Some(i) =>
      match FindFrom(s, close, i + |open|)
      case None => None
      case Some(k) => Some((i + |open|, k))
  }
}
