/** Reading a banner size out of text (src/App.tsx, `getDimensionsFromFilename`
    and `getDimensionsFromMeta`). Both use a regular expression of one shape,
    a literal `lead`, a run of decimal digits (the width), a literal `sep` and
    a second run of digits (the height), and keep the first match. */
module Dimensions {
  import opened Wrappers

  datatype Dims = Dims(width: nat, height: nat)

  /** The regular expression `<lead>(\d+)<sep>(\d+)`. */
  datatype Pattern = Pattern(lead: string, sep: string)

  /** `/(\d+)x(\d+)/` */
  const FilenamePattern: Pattern := Pattern("", "x")
  /** `/width=(\d+),height=(\d+)/` */
  const MetaPattern: Pattern := Pattern("width=", ",height=")

  /** A separator that cannot be mistaken for part of the width: it is not
      empty and does not start with a digit. Both patterns above are. */
  predicate ValidPattern(pat: Pattern) {
    |pat.sep| > 0 && !IsDigit(pat.sep[0])
  }

  /** `\d` without the `u` flag: the ASCII digits. */
  predicate IsDigit(c: char) { '0' <= c <= '9' }

  predicate AllDigits(d: string) {
    forall k :: 0 <= k < |d| ==> IsDigit(d[k])
  }

  function Pow10(n: nat): (p: nat)
    ensures p >= 1
  {
    if n == 0 then 1 else 10 * Pow10(n - 1)
  }

  /** `parseInt(d, 10)` of a digit string, exactly (no loss of precision):
      a number below `10^|d|`, and at least `10^(|d| - 1)` when the first
      digit is not `0`. */
  function Decimal(d: string): (n: nat)
    requires AllDigits(d)
    ensures n < Pow10(|d|)
    ensures |d| > 0 && d[0] != '0' ==> Pow10(|d| - 1) <= n
  {
    if d == [] then 0
    else
      var init := d[..|d| - 1];
      assert AllDigits(init) by {
        forall k | 0 <= k < |init| ensures IsDigit(init[k]) {
          assert init[k] == d[k];
        }
      }
      assert |init| > 0 ==> init[0] == d[0];
      10 * Decimal(init) + (d[|d| - 1] as int - '0' as int)
  }

  /** The length of the longest run of digits starting at `p`. */
  function DigitRun(s: string, p: nat): (n: nat)
    requires p <= |s|
    ensures p + n <= |s|
    ensures forall k :: p <= k < p + n ==> IsDigit(s[k])
    ensures p + n == |s| || !IsDigit(s[p + n])
    decreases |s| - p
  {
    if p < |s| && IsDigit(s[p]) then 1 + DigitRun(s, p + 1) else 0
  }

  /** The regular expression matches `s[p..e]` with the first group ending at
      `i`: the definition of a match, free of any choice between matches. */
  ghost predicate Occurs(s: string, pat: Pattern, p: int, i: int, e: int) {
    0 <= p && p + |pat.lead| < i && i + |pat.sep| < e <= |s|
    && s[p..p + |pat.lead|] == pat.lead
    && AllDigits(s[p + |pat.lead|..i])
    && s[i..i + |pat.sep|] == pat.sep
    && AllDigits(s[i + |pat.sep|..e])
  }

  /** The width and height that a match `Occurs(s, pat, p, i, e)` captures. */
  ghost function Captured(s: string, pat: Pattern, p: int, i: int, e: int): Dims
    requires Occurs(s, pat, p, i, e)
  {
    Dims(Decimal(s[p + |pat.lead|..i]), Decimal(s[i + |pat.sep|..e]))
  }

  /** What `String.prototype.match` returns: the match that starts leftmost,
      and among those the one whose first `\d+` is longest, and then the one
      whose second `\d+` is longest (both quantifiers are greedy). */
  ghost predicate FirstGreedyMatch(s: string, pat: Pattern, p: int, i: int, e: int) {
    Occurs(s, pat, p, i, e)
    && (forall p', i', e' :: p' < p ==> !Occurs(s, pat, p', i', e'))
    && (forall i', e' :: Occurs(s, pat, p, i', e') ==> i' <= i)
    && (forall e' :: Occurs(s, pat, p, i, e') ==> e' <= e)
  }

  /** Where the width ends for a match tried at `p`. */
  function WidthEnd(s: string, pat: Pattern, p: nat): nat
    requires p + |pat.lead| <= |s|
  {
    p + |pat.lead| + DigitRun(s, p + |pat.lead|)
  }

  /** The match tried at `p` succeeds: the lead is there, then at least one
      digit, then right after the digits the separator and a digit. */
  predicate MatchAt(s: string, pat: Pattern, p: nat) {
    p + |pat.lead| <= |s| && s[p..p + |pat.lead|] == pat.lead
    && var i := WidthEnd(s, pat, p);
       i > p + |pat.lead| && i + |pat.sep| < |s|
       && s[i..i + |pat.sep|] == pat.sep && IsDigit(s[i + |pat.sep|])
  }

  /** Where the height of the match at `p` ends. */
  function HeightEnd(s: string, pat: Pattern, p: nat): (e: nat)
    requires MatchAt(s, pat, p)
    ensures WidthEnd(s, pat, p) + |pat.sep| < e <= |s|
  {
    var j := WidthEnd(s, pat, p) + |pat.sep|;
    j + DigitRun(s, j)
  }

  /** The width and height of the match at `p`. */
  function MatchDims(s: string, pat: Pattern, p: nat): Dims
    requires MatchAt(s, pat, p)
  {
    var i := WidthEnd(s, pat, p);
    var e := HeightEnd(s, pat, p);
    assert AllDigits(s[p + |pat.lead|..i]);
    assert AllDigits(s[i + |pat.sep|..e]);
    Dims(Decimal(s[p + |pat.lead|..i]), Decimal(s[i + |pat.sep|..e]))
  }

  /** Tries the match at `p`, `p + 1`, ... and returns the first that succeeds. */
  function FindFrom(s: string, pat: Pattern, p: nat): (r: Option<Dims>)
    requires p <= |s|
    ensures r.None? ==> forall q: nat :: p <= q ==> !MatchAt(s, pat, q)
    ensures r.Some? ==> exists q: nat :: p <= q && MatchAt(s, pat, q) && r.value == MatchDims(s, pat, q)
                                         && forall q': nat :: p <= q' < q ==> !MatchAt(s, pat, q')
    decreases |s| - p
  {
    if MatchAt(s, pat, p) then
      Some(MatchDims(s, pat, p))
    else if p == |s| then
      None
    else
      var r := FindFrom(s, pat, p + 1);
      assert r.Some? ==> exists q: nat :: p < q && MatchAt(s, pat, q) && r.value == MatchDims(s, pat, q)
                                         && forall q': nat :: p + 1 <= q' < q ==> !MatchAt(s, pat, q');
      r
  }

  /** `s.match(pat)`, reduced to the two numbers, or `null` as `None`. */
  function Find(s: string, pat: Pattern): Option<Dims> {
    FindFrom(s, pat, 0)
  }

  /** `getDimensionsFromFilename(url)`: `null` exactly when `(\d+)x(\d+)`
      matches nowhere, else the numbers of its first, greedy match
      (`FindIsFirstGreedyMatch`). */
  function FilenameDims(url: string): (r: Option<Dims>)
    ensures r.None? <==> forall p, i, e :: !Occurs(url, FilenamePattern, p, i, e)
  {
    FindNoneIff(url, FilenamePattern);
    Find(url, FilenamePattern)
  }

  /** `getDimensionsFromMeta(content)`: `null` exactly when
      `width=(\d+),height=(\d+)` matches nowhere, else the numbers of its
      first, greedy match (`FindIsFirstGreedyMatch`). */
  function MetaDims(content: string): (r: Option<Dims>)
    ensures r.None? <==> forall p, i, e :: !Occurs(content, MetaPattern, p, i, e)
  {
    FindNoneIff(content, MetaPattern);
    Find(content, MetaPattern)
  }

  /** A match tried at `p` that succeeds is a match of the expression, with
      the greedy extent of both groups. */
  lemma MatchAtOccurs(s: string, pat: Pattern, p: nat)
    requires MatchAt(s, pat, p)
    ensures Occurs(s, pat, p, WidthEnd(s, pat, p), HeightEnd(s, pat, p))
    ensures Captured(s, pat, p, WidthEnd(s, pat, p), HeightEnd(s, pat, p)) == MatchDims(s, pat, p)
  {
    var i := WidthEnd(s, pat, p);
    var e := HeightEnd(s, pat, p);
    assert AllDigits(s[p + |pat.lead|..i]);
    assert AllDigits(s[i + |pat.sep|..e]);
  }

  /** Any match of the expression that starts at `p` is found by the match
      tried at `p`; its width is the whole digit run (a shorter one would end
      on a digit, not on the separator) and its height is at most the run. */
  lemma OccursAtMatch(s: string, pat: Pattern, p: nat, i: int, e: int)
    requires ValidPattern(pat) && Occurs(s, pat, p, i, e)
    ensures MatchAt(s, pat, p)
    ensures i == WidthEnd(s, pat, p)
    ensures e <= HeightEnd(s, pat, p)
  {
    var a := p + |pat.lead|;
    assert s[i..i + |pat.sep|][0] == s[i];
    DigitRunOfDigits(s, a, i);
    var j := i + |pat.sep|;
    DigitRunOfDigits(s, j, e);
    assert s[j..e][0] == s[j];
  }

  /** A run of digits `s[a..b]` lies within the digit run from `a`, and is
      all of it when it ends at a non-digit or at the end. */
  lemma DigitRunOfDigits(s: string, a: nat, b: nat)
    requires a <= b <= |s| && AllDigits(s[a..b])
    ensures DigitRun(s, a) >= b - a
    ensures b == |s| || !IsDigit(s[b]) ==> DigitRun(s, a) == b - a
  {
    forall k | a <= k < b ensures IsDigit(s[k]) {
      assert s[a..b][k - a] == s[k];
    }
  }

  /** `Find` returns nothing exactly when the expression matches nowhere in `s`. */
  lemma FindNoneIff(s: string, pat: Pattern)
    requires ValidPattern(pat)
    ensures Find(s, pat).None? <==> forall p, i, e :: !Occurs(s, pat, p, i, e)
  {
    if Find(s, pat).None? {
      forall p, i, e | Occurs(s, pat, p, i, e) ensures false {
        OccursAtMatch(s, pat, p, i, e);
      }
    } else {
      var q: nat :| MatchAt(s, pat, q);
      MatchAtOccurs(s, pat, q);
    }
  }

  /** What `Find` returns is what the first, greedy match captures. */
  lemma FindIsFirstGreedyMatch(s: string, pat: Pattern)
    requires ValidPattern(pat) && Find(s, pat).Some?
    ensures exists p, i, e :: FirstGreedyMatch(s, pat, p, i, e)
                              && Find(s, pat).value == Captured(s, pat, p, i, e)
  {
    var q: nat :| MatchAt(s, pat, q) && Find(s, pat).value == MatchDims(s, pat, q)
                  && forall q': nat :: q' < q ==> !MatchAt(s, pat, q');
    var i, e := WidthEnd(s, pat, q), HeightEnd(s, pat, q);
    MatchAtOccurs(s, pat, q);
    forall p', i', e' | p' < q ensures !Occurs(s, pat, p', i', e') {
      if Occurs(s, pat, p', i', e') {
        OccursAtMatch(s, pat, p', i', e');
      }
    }
    forall i', e' | Occurs(s, pat, q, i', e') ensures i' <= i {
      OccursAtMatch(s, pat, q, i', e');
    }
    forall e' | Occurs(s, pat, q, i, e') ensures e' <= e {
      OccursAtMatch(s, pat, q, i, e');
    }
    assert FirstGreedyMatch(s, pat, q, i, e);
  }

  /** A digit, a lower-case `x` and a digit at `k`. */
  predicate DigitXDigit(url: string, k: int) {
    0 <= k && k + 2 < |url| && IsDigit(url[k]) && url[k + 1] == 'x' && IsDigit(url[k + 2])
  }

  lemma DigitXDigitMatches(url: string, k: nat)
    requires DigitXDigit(url, k)
    ensures MatchAt(url, FilenamePattern, k)
  {
    assert DigitRun(url, k + 1) == 0;
    assert url[k + 1..k + 2] == "x";
  }

  lemma MatchHasDigitXDigit(url: string, q: nat)
    requires MatchAt(url, FilenamePattern, q)
    ensures DigitXDigit(url, WidthEnd(url, FilenamePattern, q) - 1)
  {
    var i := WidthEnd(url, FilenamePattern, q);
    assert url[i..i + 1][0] == url[i];
  }

  /** `getDimensionsFromFilename` returns `null` exactly when no digit is
      followed by a lower-case `x` and another digit. */
  lemma FilenameDimsNoneIff(url: string)
    ensures FilenameDims(url).None? <==> forall k :: !DigitXDigit(url, k)
  {
    if FilenameDims(url).None? {
      forall k | DigitXDigit(url, k) ensures false {
        DigitXDigitMatches(url, k);
      }
    } else {
      var q: nat :| MatchAt(url, FilenamePattern, q);
      MatchHasDigitXDigit(url, q);
    }
  }

  /** The match tried first that succeeds decides what `Find` returns. */
  lemma FindAt(s: string, pat: Pattern, q: nat)
    requires MatchAt(s, pat, q)
    requires forall q': nat :: q' < q ==> !MatchAt(s, pat, q')
    ensures Find(s, pat) == Some(MatchDims(s, pat, q))
  {
    var r := Find(s, pat);
    var q2: nat :| MatchAt(s, pat, q2) && r.value == MatchDims(s, pat, q2)
                   && forall q': nat :: q' < q2 ==> !MatchAt(s, pat, q');
    assert !(q < q2) && !(q2 < q);
  }


  lemma DecimalExamples()
    ensures Decimal("300") == 300 && Decimal("600") == 600 && Decimal("250") == 250
  {
    assert "300"[..2] == "30" && "30"[..1] == "3" && "3"[..0] == "";
    assert "600"[..2] == "60" && "60"[..1] == "6" && "6"[..0] == "";
    assert "250"[..2] == "25" && "25"[..1] == "2" && "2"[..0] == "";
  }

  /** `banner_300x600` gives 300 by 600. */
  lemma FilenameExample(s: string)
    requires s == "banner_300x600"
    ensures FilenameDims(s) == Some(Dims(300, 600))
  {
    FilenameExampleMatch(s);
    FindAt(s, FilenamePattern, 7);
  }

  lemma FilenameExampleMatch(s: string)
    requires s == "banner_300x600"
    ensures MatchAt(s, FilenamePattern, 7) && MatchDims(s, FilenamePattern, 7) == Dims(300, 600)
    ensures forall q: nat :: q < 7 ==> !MatchAt(s, FilenamePattern, q)
  {
    FilenameExampleRuns(s);
    forall q: nat | q < 7 ensures !MatchAt(s, FilenamePattern, q) {
      assert !IsDigit(s[q]);
    }
    assert s[10..11] == "x";
    assert s[7..10] == "300" && s[11..14] == "600";
    DecimalExamples();
  }

  lemma FilenameExampleRuns(s: string)
    requires s == "banner_300x600"
    ensures DigitRun(s, 11) == 3 && DigitRun(s, 7) == 3
  {
    assert DigitRun(s, 13) == 1 && DigitRun(s, 12) == 2;
    assert DigitRun(s, 10) == 0 && DigitRun(s, 9) == 1 && DigitRun(s, 8) == 2;
  }

  /** A meta content `width=300,height=250` gives 300 by 250. */
  lemma MetaExample(s: string)
    requires s == "width=300,height=250"
    ensures MetaDims(s) == Some(Dims(300, 250))
  {
    MetaExampleMatch(s);
    FindAt(s, MetaPattern, 0);
    assert s[6..9] == "300" && s[17..20] == "250";
    DecimalExamples();
  }

  lemma MetaExampleMatch(s: string)
    requires s == "width=300,height=250"
    ensures MatchAt(s, MetaPattern, 0)
    ensures WidthEnd(s, MetaPattern, 0) == 9 && HeightEnd(s, MetaPattern, 0) == 20
  {
    assert s[0..6] == "width=";
    assert DigitRun(s, 9) == 0 && DigitRun(s, 8) == 1 && DigitRun(s, 7) == 2 && DigitRun(s, 6) == 3;
    assert s[9..17] == ",height=";
    assert DigitRun(s, 20) == 0 && DigitRun(s, 19) == 1 && DigitRun(s, 18) == 2 && DigitRun(s, 17) == 3;
  }

  /** Only a lower-case `x` separates the numbers: `300X600` has no size. */
  lemma UpperCaseXExample(s: string)
    requires s == "300X600"
    ensures FilenameDims(s).None?
  {
    assert 'x' !in s;
    NoXNoFilenameDims(s);
  }

  /** Text without a lower-case `x` names no size. */
  lemma NoXNoFilenameDims(url: string)
    requires 'x' !in url
    ensures FilenameDims(url).None?
  {
    FilenameDimsNoneIff(url);
  }
}
