/** String operations of Python's `str` that the modelled code relies on:
    whitespace as `str.isspace()` and the regex class `\s` see it, `strip()`,
    `find()`, `join()`, `split()` on one character, and ASCII `lower()`. */
module Text {
  import opened Wrappers

  /** The characters Python treats as whitespace, both in `str.isspace()`
      (hence `strip()`) and in the regex class `\s` of a `str` pattern. */
  predicate IsSpace(c: char) {
    || ('\t' <= c <= '\r')
    || ('\U{1C}' <= c <= '\U{1F}')
    || c == ' ' || c == '\U{85}' || c == '\U{A0}' || c == '\U{1680}'
    || ('\U{2000}' <= c <= '\U{200A}')
    || c == '\U{2028}' || c == '\U{2029}' || c == '\U{202F}' || c == '\U{205F}' || c == '\U{3000}'
  }

  predicate AllSpace(s: string) {
    forall i :: 0 <= i < |s| ==> IsSpace(s[i])
  }

  /** Neither end of `s` is whitespace. */
  predicate Trimmed(s: string) {
    |s| == 0 || (!IsSpace(s[0]) && !IsSpace(s[|s| - 1]))
  }

  predicate StartsWith(s: string, prefix: string) {
    |prefix| <= |s| && s[..|prefix|] == prefix
  }

  predicate EndsWith(s: string, suffix: string) {
    |suffix| <= |s| && s[|s| - |suffix|..] == suffix
  }

  /** Length of the run of whitespace that starts `s`. */
  function LeadingSpace(s: string): (n: nat)
    ensures n <= |s| && AllSpace(s[..n])
    ensures n < |s| ==> !IsSpace(s[n])
  {
    if |s| == 0 || !IsSpace(s[0]) then 0
    else
      var m := LeadingSpace(s[1..]);
      assert s[..1 + m] == [s[0]] + s[1..][..m];
      1 + m
  }

  /** Length of the run of whitespace that ends `s`. */
  function TrailingSpace(s: string): (n: nat)
    ensures n <= |s| && AllSpace(s[|s| - n..])
    ensures n < |s| ==> !IsSpace(s[|s| - 1 - n])
  {
    if |s| == 0 || !IsSpace(s[|s| - 1]) then 0
    else
      var init := s[..|s| - 1];
      var m := TrailingSpace(init);
      assert s[|s| - (1 + m)..] == init[|init| - m..] + [s[|s| - 1]];
      1 + m
  }

  /** Python's `s.strip()`: `s` without its leading and trailing whitespace. */
  function Strip(s: string): (r: string)
    ensures Trimmed(r)
  {
    var a := LeadingSpace(s);
    var rest := s[a..];
    var b := TrailingSpace(rest);
    assert a < |s| ==> b < |rest|;
    rest[..|rest| - b]
  }

  /** The result of `Strip` is the middle of `s`, framed by two runs of
      whitespace, and empty exactly when `s` is all whitespace. */
  lemma StripMiddle(s: string)
    ensures var r := Strip(s);
      && LeadingSpace(s) + |r| <= |s|
      && r == s[LeadingSpace(s)..LeadingSpace(s) + |r|]
      && AllSpace(s[LeadingSpace(s) + |r|..])
      && (r == [] <==> AllSpace(s))
  {
    StripBody(s);
    StripTail(s);
    StripEmpty(s);
  }

  lemma StripBody(s: string)
    ensures LeadingSpace(s) + |Strip(s)| <= |s|
    ensures Strip(s) == s[LeadingSpace(s)..LeadingSpace(s) + |Strip(s)|]
  {
    var a := LeadingSpace(s);
    var rest := s[a..];
    var b := TrailingSpace(rest);
    assert Strip(s) == rest[..|rest| - b];
    DropTake(s, a, |rest| - b);
  }

  lemma StripTail(s: string)
    ensures LeadingSpace(s) + |Strip(s)| <= |s|
    ensures AllSpace(s[LeadingSpace(s) + |Strip(s)|..])
  {
    var a := LeadingSpace(s);
    var rest := s[a..];
    var b := TrailingSpace(rest);
    assert Strip(s) == rest[..|rest| - b];
    DropTake(s, a, |rest| - b);
  }

  lemma StripEmpty(s: string)
    ensures Strip(s) == [] <==> AllSpace(s)
  {
    var a := LeadingSpace(s);
    LeadingAll(s);
    if a < |s| {
      var rest := s[a..];
      assert rest[0] == s[a];
    }
  }

  /** Slicing a suffix is slicing the whole. */
  lemma DropTake(s: string, a: nat, n: nat)
    requires a + n <= |s|
    ensures s[a..][..n] == s[a..a + n]
    ensures s[a..][n..] == s[a + n..]
  {
  }

  /** The leading run covers all of `s` exactly when `s` is all
      whitespace. */
  lemma LeadingAll(s: string)
    ensures LeadingSpace(s) == |s| <==> AllSpace(s)
  {
    var a := LeadingSpace(s);
    if a == |s| {
      assert s[..a] == s;
    }
  }

  /** Stripping a trimmed text framed by whitespace gives that text back. */
  lemma {:induction false} StripFramed(w1: string, x: string, w2: string)
    requires AllSpace(w1) && AllSpace(w2) && Trimmed(x)
    ensures Strip(w1 + x + w2) == x
  {
    var s := w1 + x + w2;
    if x == [] {
      assert s == w1 + w2;
      AllSpaceConcat(w1, w2);
      StripEmpty(s);
    } else {
      assert s[..|w1|] == w1 && s[|w1|] == x[0];
      LeadingSpaceIs(s, |w1|);
      var rest := s[|w1|..];
      assert rest == x + w2;
      assert rest[|rest| - |w2|..] == w2 && rest[|rest| - 1 - |w2|] == x[|x| - 1];
      TrailingSpaceIs(rest, |w2|);
      assert Strip(s) == rest[..|x|];
    }
  }

  /** Trimmed text is its own `strip()`. */
  lemma StripTrimmed(x: string)
    requires Trimmed(x)
    ensures Strip(x) == x
  {
    StripFramed("", x, "");
    assert "" + x + "" == x;
  }

  lemma AllSpaceConcat(a: string, b: string)
    requires AllSpace(a) && AllSpace(b)
    ensures AllSpace(a + b)
  {
    forall i | 0 <= i < |a + b| ensures IsSpace((a + b)[i]) {
      if i < |a| { assert (a + b)[i] == a[i]; } else { assert (a + b)[i] == b[i - |a|]; }
    }
  }

  /** A whitespace run followed by a non-space is the leading run. */
  lemma {:induction false} LeadingSpaceIs(s: string, k: nat)
    requires k <= |s| && AllSpace(s[..k]) && (k < |s| ==> !IsSpace(s[k]))
    ensures LeadingSpace(s) == k
    decreases k
  {
    if k > 0 {
      assert IsSpace(s[..k][0]);
      assert s[1..][..k - 1] == s[..k][1..];
      LeadingSpaceIs(s[1..], k - 1);
    }
  }

  /** A whitespace run preceded by a non-space is the trailing run. */
  lemma {:induction false} TrailingSpaceIs(s: string, k: nat)
    requires k <= |s| && AllSpace(s[|s| - k..]) && (k < |s| ==> !IsSpace(s[|s| - 1 - k]))
    ensures TrailingSpace(s) == k
    decreases k
  {
    if k > 0 {
      var init := s[..|s| - 1];
      assert IsSpace(s[|s| - k..][k - 1]);
      assert init[|init| - (k - 1)..] == s[|s| - k..][..k - 1];
      TrailingSpaceIs(init, k - 1);
    }
  }

  /** A subject character matches a pattern character; `caseless` is Python's
      `re.IGNORECASE` for a lower-case ASCII pattern letter, which matches the
      letter in either case and, for `s`, also U+017F LATIN SMALL LETTER LONG S.
      (The patterns of the model contain no `i` or `k`, the other letters with
      non-ASCII case partners.) */
  predicate CharMatches(c: char, p: char, caseless: bool) {
    || c == p
    || (caseless && 'a' <= p <= 'z' && c as int == p as int - 32)
    || (caseless && p == 's' && c == '\U{017F}')
  }

  /** `pat` occurs in `t` at index `k`. */
  predicate MatchAt(t: string, k: int, pat: string, caseless: bool) {
    0 <= k && k + |pat| <= |t| && MatchFrom(t, k, pat, 0, caseless)
  }

  /** The characters of `pat` from index `q` on match `t` from `k + q` on,
      compared one character at a time as a regex literal is. */
  predicate MatchFrom(t: string, k: nat, pat: string, q: nat, caseless: bool)
    requires k + |pat| <= |t|
    decreases |pat| - q
  {
    q >= |pat| || (CharMatches(t[k + q], pat[q], caseless) && MatchFrom(t, k, pat, q + 1, caseless))
  }

  lemma {:induction false} MatchFromAll(t: string, k: nat, pat: string, q: nat, caseless: bool)
    requires k + |pat| <= |t| && q <= |pat|
    ensures MatchFrom(t, k, pat, q, caseless) <==> forall m :: q <= m < |pat| ==> CharMatches(t[k + m], pat[m], caseless)
    decreases |pat| - q
  {
    if q < |pat| {
      MatchFromAll(t, k, pat, q + 1, caseless);
    }
  }

  /** A match is a character-by-character match of the whole pattern. */
  lemma MatchAtAll(t: string, k: int, pat: string, caseless: bool)
    ensures MatchAt(t, k, pat, caseless) <==>
      && 0 <= k && k + |pat| <= |t|
      && forall m :: 0 <= m < |pat| ==> CharMatches(t[k + m], pat[m], caseless)
  {
    if 0 <= k && k + |pat| <= |t| {
      MatchFromAll(t, k, pat, 0, caseless);
    }
  }

  /** Concatenation is associative. */
  lemma AppendAssoc<T>(a: seq<T>, b: seq<T>, c: seq<T>)
    ensures (a + b) + c == a + (b + c)
  {
  }

  /** The middle piece of a three-way concatenation, and its head. */
  lemma Middle(x: string, y: string, z: string)
    ensures (x + y + z)[|x|..|x| + |y|] == y
    ensures (x + y + z)[..|x|] == x
    ensures (x + y + z)[|x| + |y|..] == z
  {
  }

  /** A slice of a slice is a slice of the whole. */
  lemma SliceOfSlice(t: string, x: nat, y: nat, a: nat, b: nat)
    requires x <= y <= |t| && a <= b <= y - x
    ensures t[x..y][a..b] == t[x + a..x + b]
  {
    assert forall q :: 0 <= q < b - a ==> t[x..y][a..b][q] == t[x + a + q];
  }

  /** The first index at or after `from` that does not hold whitespace, or
      `|t|`: where a greedy `\s*` starting at `from` stops. */
  function SkipSpace(t: string, from: nat): (n: nat)
    requires from <= |t|
    ensures from <= n <= |t|
    decreases |t| - from
  {
    if from == |t| || !IsSpace(t[from]) then from else SkipSpace(t, from + 1)
  }

  /** `SkipSpace` stops at the first non-space: everything it passes over is
      whitespace. */
  lemma {:induction false} SkipSpaceRun(t: string, from: nat)
    requires from <= |t|
    ensures var n := SkipSpace(t, from);
      && (forall m :: from <= m < n ==> IsSpace(t[m]))
      && (n < |t| ==> !IsSpace(t[n]))
    decreases |t| - from
  {
    if from < |t| && IsSpace(t[from]) {
      SkipSpaceRun(t, from + 1);
    }
  }

  /** A run of whitespace from `from` ended by a non-space at `n` is what
      `SkipSpace` passes over. */
  lemma {:induction false} SkipSpaceIs(t: string, from: nat, n: nat)
    requires from <= n < |t| && !IsSpace(t[n])
    requires forall m :: from <= m < n ==> IsSpace(t[m])
    ensures SkipSpace(t, from) == n
    decreases n - from
  {
    if from < n {
      SkipSpaceIs(t, from + 1, n);
    }
  }

  /** A match inside a piece of `t` is a match in `t` at the shifted index,
      and the other way round. */
  lemma MatchInPiece(t: string, o: nat, piece: string, k: nat, pat: string, caseless: bool)
    requires o + |piece| <= |t| && t[o..o + |piece|] == piece
    requires k + |pat| <= |piece|
    ensures MatchAt(piece, k, pat, caseless) <==> MatchAt(t, o + k, pat, caseless)
  {
    forall q | k <= q < k + |pat| ensures t[o + q] == piece[q] {
      assert t[o..o + |piece|][q] == piece[q];
    }
    MatchAtAll(piece, k, pat, caseless);
    MatchAtAll(t, o + k, pat, caseless);
  }

  /** Python's `t.find(pat, from)` (and, `caseless`, the position a
      case-insensitive regex literal first matches): the first index at or
      after `from` where `pat` occurs, or nothing. `FindFirst` proves it. */
  function Find(t: string, pat: string, from: nat, caseless: bool): (r: Option<nat>)
    ensures r.Some? ==> from <= r.value && r.value + |pat| <= |t|
    decreases |t| - from
  {
    if from + |pat| > |t| then None
    else if MatchAt(t, from, pat, caseless) then Some(from)
    else Find(t, pat, from + 1, caseless)
  }

  /** `Find` returns a match with none before it, and nothing only when
      there is no match at all from `from` on. */
  lemma {:induction false} FindFirst(t: string, pat: string, from: nat, caseless: bool)
    ensures var r := Find(t, pat, from, caseless);
      && (r.Some? ==> from <= r.value && MatchAt(t, r.value, pat, caseless))
      && (r.Some? ==> forall m :: from <= m < r.value ==> !MatchAt(t, m, pat, caseless))
      && (r.None? ==> forall m :: from <= m ==> !MatchAt(t, m, pat, caseless))
    decreases |t| - from
  {
    if from + |pat| <= |t| && !MatchAt(t, from, pat, caseless) {
      FindFirst(t, pat, from + 1, caseless);
    }
  }

  /** The first match at or after `from` is what `Find` returns. */
  lemma FindIs(t: string, pat: string, from: nat, k: nat, caseless: bool)
    requires from <= k && MatchAt(t, k, pat, caseless)
    requires forall m :: from <= m < k ==> !MatchAt(t, m, pat, caseless)
    ensures Find(t, pat, from, caseless) == Some(k)
  {
    FindFirst(t, pat, from, caseless);
  }

  /** Without any match from `from` on, `Find` returns nothing. */
  lemma FindNone(t: string, pat: string, from: nat, caseless: bool)
    requires forall m :: from <= m ==> !MatchAt(t, m, pat, caseless)
    ensures Find(t, pat, from, caseless).None?
  {
    FindFirst(t, pat, from, caseless);
  }

  /** Python's `sep.join(parts)`. */
  function Join(sep: string, parts: seq<string>): string
    decreases |parts|
  {
    if |parts| == 0 then ""
    else if |parts| == 1 then parts[0]
    else parts[0] + sep + Join(sep, parts[1..])
  }

  /** Joining one more part appends the separator and that part. */
  lemma {:induction false} JoinSnoc(sep: string, parts: seq<string>, p: string)
    ensures Join(sep, parts + [p]) == if parts == [] then p else Join(sep, parts) + sep + p
    decreases |parts|
  {
    if |parts| > 1 {
      assert (parts + [p])[1..] == parts[1..] + [p];
      JoinSnoc(sep, parts[1..], p);
    } else if |parts| == 1 {
      assert (parts + [p])[1..] == [p];
    }
  }

  /** Index of the first `d` in `s`. */
  function FirstIndex(s: string, d: char): (k: nat)
    requires d in s
    ensures k < |s| && s[k] == d && d !in s[..k]
  {
    if s[0] == d then 0
    else
      var k := FirstIndex(s[1..], d);
      assert s[..1 + k] == [s[0]] + s[1..][..k];
      1 + k
  }

  /** Python's `s.split(d)` for a one-character separator: the pieces
      between the occurrences of `d`, which joined by `d` give `s` back. */
  function Split(s: string, d: char): (r: seq<string>)
    ensures |r| >= 1
    ensures forall i :: 0 <= i < |r| ==> d !in r[i]
    ensures Join([d], r) == s
    decreases |s|
  {
    if d !in s then [s]
    else
      var k := FirstIndex(s, d);
      var rest := Split(s[k + 1..], d);
      var r := [s[..k]] + rest;
      assert r[1..] == rest;
      assert s == s[..k] + [d] + s[k + 1..];
      r
  }

  /** Splitting a piece without `d`, then `d`, then more, gives that piece first. */
  lemma {:induction false} SplitCons(x: string, d: char, y: string)
    requires d !in x
    ensures Split(x + [d] + y, d) == [x] + Split(y, d)
  {
    var s := x + [d] + y;
    assert s[|x|] == d;
    var k := FirstIndex(s, d);
    assert k == |x|;
    assert s[..k] == x;
    assert s[k + 1..] == y;
  }

  /** Lines each terminated by a newline, as text built by `+= line + "\n"`. */
  function Unlines(lines: seq<string>): string
    decreases |lines|
  {
    if lines == [] then "" else lines[0] + "\n" + Unlines(lines[1..])
  }

  lemma {:induction false} UnlinesSnoc(lines: seq<string>, l: string)
    ensures Unlines(lines + [l]) == Unlines(lines) + l + "\n"
    decreases |lines|
  {
    if lines != [] {
      assert (lines + [l])[1..] == lines[1..] + [l];
      UnlinesSnoc(lines[1..], l);
    }
  }

  /** Split back on newlines, newline-terminated lines give the lines and a
      final empty piece. */
  lemma {:induction false} SplitUnlines(lines: seq<string>)
    requires forall i :: 0 <= i < |lines| ==> '\n' !in lines[i]
    ensures Split(Unlines(lines), '\n') == lines + [""]
    decreases |lines|
  {
    if lines != [] {
      SplitUnlines(lines[1..]);
      assert lines[0] + "\n" + Unlines(lines[1..]) == lines[0] + ['\n'] + Unlines(lines[1..]);
      SplitCons(lines[0], '\n', Unlines(lines[1..]));
      assert lines == [lines[0]] + lines[1..];
    }
  }

  function LowerChar(c: char): char {
    if 'A' <= c <= 'Z' then (c as int + 32) as char else c
  }

  /** `s.lower()` on the ASCII letters. */
  function Lower(s: string): (r: string)
    ensures |r| == |s|
    ensures forall i :: 0 <= i < |r| ==> !('A' <= r[i] <= 'Z')
    ensures forall i :: 0 <= i < |s| && 'A' <= s[i] <= 'Z' ==> r[i] as int == s[i] as int + 32
    ensures forall i :: 0 <= i < |s| && !('A' <= s[i] <= 'Z') ==> r[i] == s[i]
  {
    seq(|s|, i requires 0 <= i < |s| => LowerChar(s[i]))
  }
}
