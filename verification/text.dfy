/**
  Text helpers shared by every stage of the scraper: an optional value, the
  whitespace trimming that Python's `str.strip()` performs, and the "N/A"
  normalisation applied to every scraped text field.
*/
module Text {

  /** A value that may be missing: a row without an id attribute, an unset credential. */
  datatype Option<+T> = None | Some(value: T)

  /** The sentinel stored in place of an empty or missing field. */
  const NotAvailable: string := "N/A"

  /** The characters Python's `str.isspace()` accepts, which are the ones `str.strip()` removes. */
  predicate IsSpace(c: char) {
    var n := c as int;
    || (0x09 <= n <= 0x0D)
    || (0x1C <= n <= 0x20)
    || n == 0x85 || n == 0xA0 || n == 0x1680
    || (0x2000 <= n <= 0x200A)
    || n == 0x2028 || n == 0x2029 || n == 0x202F || n == 0x205F || n == 0x3000
  }

  predicate AllSpace(s: string) {
    forall i :: 0 <= i < |s| ==> IsSpace(s[i])
  }

  /** Neither end of `s` is whitespace. */
  predicate Trimmed(s: string) {
    s == [] || (!IsSpace(s[0]) && !IsSpace(s[|s| - 1]))
  }

  /** Index of the first occurrence of `c` in `s`, or `|s|` when there is none. */
  function FirstIndex(s: string, c: char): (n: nat)
    ensures n <= |s|
    ensures forall i :: 0 <= i < n ==> s[i] != c
    ensures n < |s| ==> s[n] == c
  {
    if s == [] || s[0] == c then 0 else 1 + FirstIndex(s[1..], c)
  }

  /** An occurrence of `c` inside `a` is found before anything appended to `a` is looked at. */
  lemma {:induction false} FirstIndexPrefix(a: string, b: string, c: char)
    requires FirstIndex(a, c) < |a|
    ensures FirstIndex(a + b, c) == FirstIndex(a, c)
    decreases |a|
  {
    if a[0] != c {
      assert (a + b)[1..] == a[1..] + b;
      FirstIndexPrefix(a[1..], b, c);
    }
  }

  /** In `f + rest`, with `c` absent from `f` and `rest` starting with `c`, the first `c` sits right after `f`. */
  lemma FirstIndexAfter(f: string, rest: string, c: char)
    requires forall i :: 0 <= i < |f| ==> f[i] != c
    requires rest != [] && rest[0] == c
    ensures FirstIndex(f + rest, c) == |f|
  {
    var s := f + rest;
    assert forall i :: 0 <= i < |f| ==> s[i] == f[i];
    assert s[|f|] == c;
  }

  /** Length of the longest all-whitespace prefix of `s`. */
  function LeadingSpace(s: string): (n: nat)
    ensures n <= |s|
    ensures AllSpace(s[..n])
    ensures n < |s| ==> !IsSpace(s[n])
  {
    if s == [] || !IsSpace(s[0]) then 0
    else
      var m := LeadingSpace(s[1..]);
      assert forall i :: 1 <= i < 1 + m ==> s[i] == s[1..][..m][i - 1];
      1 + m
  }

  /** Length of the longest all-whitespace suffix of `s`. */
  function TrailingSpace(s: string): (n: nat)
    ensures n <= |s|
    ensures AllSpace(s[|s| - n..])
    ensures n < |s| ==> !IsSpace(s[|s| - n - 1])
  {
    if s == [] || !IsSpace(s[|s| - 1]) then 0
    else
      var init := s[..|s| - 1];
      var m := TrailingSpace(init);
      assert forall i :: |s| - 1 - m <= i < |s| - 1 ==> s[i] == init[|init| - m..][i - (|s| - 1 - m)];
      1 + m
  }

  /** Python's `s.strip()`: `s` without its leading and trailing whitespace. */
  function Strip(s: string): (r: string)
    ensures Trimmed(r)
    ensures |r| <= |s|
    ensures r == [] <==> AllSpace(s)
  {
    var i := LeadingSpace(s);
    if i == |s| then
      assert s[..i] == s;
      []
    else
      var j := |s| - TrailingSpace(s);
      assert i < j;
      s[i..j]
  }

  /** Python's `s.strip() or "N/A"`, the rule applied to every scraped text cell. */
  function Normalize(s: string): (r: string)
    ensures r != [] && Trimmed(r)
    ensures !AllSpace(s) ==> r == Strip(s)
    ensures AllSpace(s) ==> r == NotAvailable
  {
    var t := Strip(s);
    if t == [] then NotAvailable else t
  }

  /** `Strip` removes only whitespace: `s` is the result wrapped in two all-whitespace runs. */
  lemma StripDecompose(s: string)
    ensures exists p, q :: AllSpace(p) && AllSpace(q) && s == p + Strip(s) + q
  {
    var i := LeadingSpace(s);
    if i == |s| {
      StripDecomposeBlank(s);
    } else {
      StripDecomposeCore(s);
    }
  }

  /** `StripDecompose` for an all-whitespace string: the whole string is the leading run. */
  lemma StripDecomposeBlank(s: string)
    requires LeadingSpace(s) == |s|
    ensures exists p, q :: AllSpace(p) && AllSpace(q) && s == p + Strip(s) + q
  {
    var p: string, q: string := s, [];
    assert AllSpace(p) by {
      assert p == s[..LeadingSpace(s)];
    }
    assert s == p + Strip(s) + q;
    assert AllSpace(p) && AllSpace(q) && s == p + Strip(s) + q;
  }

  /** `StripDecompose` for a string with content: the runs are the slices around the result. */
  lemma StripDecomposeCore(s: string)
    requires LeadingSpace(s) < |s|
    ensures exists p, q :: AllSpace(p) && AllSpace(q) && s == p + Strip(s) + q
  {
    var i := LeadingSpace(s);
    var j := |s| - TrailingSpace(s);
    var p, q := s[..i], s[j..];
    assert AllSpace(p) && AllSpace(q) && s == p + Strip(s) + q by {
      StripSlice(s);
      SplitThree(s, i, j);
    }
  }

  /** A string is its three consecutive slices put back together. */
  lemma SplitThree(s: string, i: nat, j: nat)
    requires i <= j <= |s|
    ensures s == s[..i] + s[i..j] + s[j..]
  {
    assert s[..i] + s[i..j] == s[..j];
  }

  /** When `s` holds something besides whitespace, `Strip` returns the slice between its leading and trailing runs. */
  lemma StripSlice(s: string)
    requires LeadingSpace(s) < |s|
    ensures LeadingSpace(s) <= |s| - TrailingSpace(s)
    ensures Strip(s) == s[LeadingSpace(s)..|s| - TrailingSpace(s)]
  {
    var i, n := LeadingSpace(s), TrailingSpace(s);
    forall k | |s| - n <= k < |s|
      ensures IsSpace(s[k])
    {
      assert s[|s| - n..][k - (|s| - n)] == s[k];
    }
    BeforeRun(s, IsSpace, i, n);
  }

  /** A position whose element fails `p` lies before a final run of elements that satisfy `p`. */
  lemma BeforeRun<T>(s: seq<T>, p: T -> bool, i: nat, n: nat)
    requires i < |s| && n <= |s|
    requires forall k :: |s| - n <= k < |s| ==> p(s[k])
    requires !p(s[i])
    ensures i < |s| - n
  {
  }

  /** The trimmed core of a string is unique, so `Strip` returns exactly it. */
  lemma {:induction false} StripUnique(p: string, t: string, q: string)
    requires AllSpace(p) && AllSpace(q) && Trimmed(t) && t != []
    ensures Strip(p + t + q) == t
  {
    var s := p + t + q;
    var i := LeadingSpace(s);
    assert s[|p|] == t[0];
    assert i == |p|;
    var n := TrailingSpace(s);
    assert s[|s| - |q| - 1] == t[|t| - 1];
    assert n == |q|;
    assert s[i..|s| - n] == t;
  }

  /** A string with no surrounding whitespace is left alone by `Strip`. */
  lemma StripTrimmed(s: string)
    requires Trimmed(s)
    ensures Strip(s) == s
  {
    if s == [] {
    } else {
      StripUnique([], s, []);
      assert [] + s + [] == s;
    }
  }

  /** Stripping twice is stripping once. */
  lemma StripIdempotent(s: string)
    ensures Strip(Strip(s)) == Strip(s)
  {
    StripTrimmed(Strip(s));
  }

  lemma NotAvailableTrimmed()
    ensures NotAvailable != [] && Trimmed(NotAvailable) && !AllSpace(NotAvailable)
  {
    assert !IsSpace(NotAvailable[0]);
  }

  /** Normalising an already normalised field changes nothing. */
  lemma NormalizeIdempotent(s: string)
    ensures Normalize(Normalize(s)) == Normalize(s)
  {
    var r := Normalize(s);
    StripTrimmed(r);
    assert !IsSpace(r[0]);
  }

  /** The fixed points of the normalisation are exactly the non-empty trimmed strings. */
  lemma NormalizeFixedPoint(s: string)
    ensures Normalize(s) == s <==> s != [] && Trimmed(s)
  {
    if s != [] && Trimmed(s) {
      StripTrimmed(s);
      assert !IsSpace(s[0]);
    }
  }
}
