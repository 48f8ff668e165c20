/** The Python `str` methods the downloader applies to names, keys, tags and
    URLs: `strip()`, `replace(a, b)` for one character, `title()`,
    `sep.join(xs)` and `split(sep)[-1]`. Case exists only for ASCII letters
    here; every other character counts as uncased. */
module PyString {

  /** `c.isspace()`: the characters that `strip()` removes. */
  predicate IsSpace(c: char) {
    var n := c as int;
    n == 0x20 || 0x09 <= n <= 0x0D || 0x1C <= n <= 0x1F || n == 0x85 || n == 0xA0
    || n == 0x1680 || 0x2000 <= n <= 0x200A || n == 0x2028 || n == 0x2029
    || n == 0x202F || n == 0x205F || n == 0x3000
  }

  /** How many white-space characters `s` starts with. */
  function LeadingSpace(s: string): (n: nat)
    ensures n <= |s|
    ensures forall k :: 0 <= k < n ==> IsSpace(s[k])
    ensures n < |s| ==> !IsSpace(s[n])
  {
    if s != [] && IsSpace(s[0]) then 1 + LeadingSpace(s[1..]) else 0
  }

  /** How many white-space characters `s` ends with. */
  function TrailingSpace(s: string): (n: nat)
    ensures n <= |s|
    ensures forall k :: |s| - n <= k < |s| ==> IsSpace(s[k])
    ensures n < |s| ==> !IsSpace(s[|s| - n - 1])
  {
    if s != [] && IsSpace(s[|s| - 1]) then 1 + TrailingSpace(s[..|s| - 1]) else 0
  }

  /** `s.strip()`: the slice of `s` after its leading white space, up to where
      only white space follows; the result neither starts nor ends with white space. */
  function Strip(s: string): (r: string)
    ensures LeadingSpace(s) + |r| <= |s|
    ensures r == s[LeadingSpace(s)..LeadingSpace(s) + |r|]
    ensures forall k :: LeadingSpace(s) + |r| <= k < |s| ==> IsSpace(s[k])
    ensures r != [] ==> !IsSpace(r[0]) && !IsSpace(r[|r| - 1])
  {
    var i := LeadingSpace(s);
    var t := s[i..];
    var r := t[..|t| - TrailingSpace(t)];
    assert forall k :: i + |r| <= k < |s| ==> s[k] == t[k - i];
    r
  }

  /** A string strips to nothing exactly when it is all white space. */
  lemma StripEmptyIff(s: string)
    ensures Strip(s) == [] <==> forall k :: 0 <= k < |s| ==> IsSpace(s[k])
  {
  }

  /** Stripping twice is stripping once. */
  lemma StripIdempotent(s: string)
    ensures Strip(Strip(s)) == Strip(s)
  {
    var r := Strip(s);
    assert LeadingSpace(r) == 0;
    assert TrailingSpace(r) == 0;
  }

  /** `s.replace(target, replacement)` for single characters. */
  function Replace(s: string, target: char, replacement: char): (r: string)
    ensures |r| == |s|
    ensures forall i :: 0 <= i < |s| ==> r[i] == if s[i] == target then replacement else s[i]
  {
    if s == [] then []
    else [if s[0] == target then replacement else s[0]] + Replace(s[1..], target, replacement)
  }

  /** After the replacement no `target` is left, and a second pass changes nothing. */
  lemma ReplaceRemovesTarget(s: string, target: char, replacement: char)
    requires target != replacement
    ensures target !in Replace(s, target, replacement)
    ensures Replace(Replace(s, target, replacement), target, replacement) == Replace(s, target, replacement)
  {
    var r := Replace(s, target, replacement);
    forall i | 0 <= i < |r| ensures r[i] != target { }
    assert target !in r;
  }

  predicate IsCased(c: char) {
    'a' <= c <= 'z' || 'A' <= c <= 'Z'
  }

  predicate IsUpper(c: char) {
    'A' <= c <= 'Z'
  }

  function Lower(c: char): (r: char)
    ensures IsCased(c) ==> IsCased(r) && !IsUpper(r)
    ensures !IsCased(c) ==> r == c
  {
    if 'A' <= c <= 'Z' then (c as int + 32) as char else c
  }

  function Upper(c: char): (r: char)
    ensures IsCased(c) ==> IsCased(r) && IsUpper(r) && Lower(r) == Lower(c)
    ensures !IsCased(c) ==> r == c
  {
    if 'a' <= c <= 'z' then (c as int - 32) as char else c
  }

  /** Lower-casing keeps the letter: a lower-case letter's lower case is itself. */
  lemma LowerKeepsLetter(c: char)
    ensures Lower(Lower(c)) == Lower(c)
    ensures IsCased(c) ==> Upper(Lower(c)) == Upper(c)
  {
  }

  /** `title()` resumed after a character that was cased (`afterCased`) or not:
      each character is upper-cased when the one before it was uncased and
      lower-cased otherwise, as CPython's `do_title` does. */
  function TitleFrom(s: string, afterCased: bool): (r: string)
    ensures |r| == |s|
    ensures forall i :: 0 <= i < |s| ==>
      r[i] == if (if i == 0 then afterCased else IsCased(s[i - 1])) then Lower(s[i]) else Upper(s[i])
  {
    if s == [] then []
    else [if afterCased then Lower(s[0]) else Upper(s[0])] + TitleFrom(s[1..], IsCased(s[0]))
  }

  /** Position `i` begins a run of letters: it is first, or follows a non-letter. */
  predicate StartsRun(s: string, i: int)
    requires 0 <= i < |s|
  {
    i == 0 || !IsCased(s[i - 1])
  }

  /** `s.title()`: in every run of letters the first is upper case and the rest
      lower case; any non-letter, a digit included, ends a run and is kept. */
  function Title(s: string): (r: string)
    ensures |r| == |s|
    ensures forall i :: 0 <= i < |s| && IsCased(s[i]) ==>
      IsCased(r[i]) && Lower(r[i]) == Lower(s[i]) && (IsUpper(r[i]) <==> StartsRun(s, i))
    ensures forall i :: 0 <= i < |s| && !IsCased(s[i]) ==> r[i] == s[i]
  {
    var r := TitleFrom(s, false);
    assert forall i :: 0 <= i < |s| ==> r[i] == if StartsRun(s, i) then Upper(s[i]) else Lower(s[i]);
    forall i | 0 <= i < |s| && IsCased(s[i])
      ensures Lower(r[i]) == Lower(s[i])
    {
      LowerKeepsLetter(s[i]);
    }
    r
  }

  /** Title-casing a title-cased string changes nothing. */
  lemma TitleIdempotent(s: string)
    ensures Title(Title(s)) == Title(s)
  {
    var t := Title(s);
    var tt := Title(t);
    forall i | 0 <= i < |s|
      ensures tt[i] == t[i]
    {
      if IsCased(s[i]) {
        assert i > 0 ==> IsCased(t[i - 1]) == IsCased(s[i - 1]);
        assert StartsRun(t, i) == StartsRun(s, i);
      }
    }
  }

  /** `sep.join(xs)`. */
  function Join(xs: seq<string>, sep: string): string {
    if |xs| == 0 then ""
    else if |xs| == 1 then xs[0]
    else Join(xs[..|xs| - 1], sep) + sep + xs[|xs| - 1]
  }

  /** Where `xs[k]` starts inside `Join(xs, sep)`: after each earlier item and its separator. */
  function JoinOffset(xs: seq<string>, sep: string, k: nat): nat
    requires k <= |xs|
  {
    if k == 0 then 0 else JoinOffset(xs, sep, k - 1) + |xs[k - 1]| + |sep|
  }

  /** `piece` occurs in `s` starting at index `at`. */
  predicate PieceAt(s: string, at: int, piece: string) {
    0 <= at <= |s| - |piece| && s[at..at + |piece|] == piece
  }

  /** The joined string holds every item, in order, at its offset, and is
      exactly as long as the items and the separators between them. */
  lemma {:induction false} JoinItems(xs: seq<string>, sep: string)
    requires xs != []
    ensures |Join(xs, sep)| == JoinOffset(xs, sep, |xs|) - |sep|
    ensures forall k :: 0 <= k < |xs| ==> PieceAt(Join(xs, sep), JoinOffset(xs, sep, k), xs[k])
  {
    JoinLength(xs, sep);
    forall k | 0 <= k < |xs| ensures PieceAt(Join(xs, sep), JoinOffset(xs, sep, k), xs[k]) {
      JoinItemAt(xs, sep, k);
    }
  }

  /** Between neighbouring items the joined string holds exactly `sep`. */
  lemma {:induction false} JoinSeparators(xs: seq<string>, sep: string)
    ensures forall k :: 0 < k < |xs| ==> PieceAt(Join(xs, sep), JoinOffset(xs, sep, k) - |sep|, sep)
  {
    forall k | 0 < k < |xs| ensures PieceAt(Join(xs, sep), JoinOffset(xs, sep, k) - |sep|, sep) {
      JoinSeparatorAt(xs, sep, k);
    }
  }

  lemma {:induction false} JoinLength(xs: seq<string>, sep: string)
    requires xs != []
    ensures |Join(xs, sep)| == JoinOffset(xs, sep, |xs|) - |sep|
  {
    if |xs| > 1 {
      var n := |xs| - 1;
      JoinLength(xs[..n], sep);
      JoinOffsetPrefix(xs, xs[..n], sep, n);
    }
  }

  lemma {:induction false} JoinItemAt(xs: seq<string>, sep: string, k: nat)
    requires k < |xs|
    ensures PieceAt(Join(xs, sep), JoinOffset(xs, sep, k), xs[k])
  {
    var n := |xs| - 1;
    if n > 0 {
      var init := xs[..n];
      var j := Join(init, sep);
      JoinLength(init, sep);
      JoinOffsetPrefix(xs, init, sep, if k < n then k else n);
      JoinLastPieces(j, sep, xs[n]);
      if k < n {
        JoinItemAt(init, sep, k);
        PieceInPrefix(j, sep, JoinOffset(init, sep, k), init[k]);
        PieceInPrefix(j + sep, xs[n], JoinOffset(init, sep, k), init[k]);
      }
    }
  }

  lemma {:induction false} JoinSeparatorAt(xs: seq<string>, sep: string, k: nat)
    requires 0 < k < |xs|
    ensures PieceAt(Join(xs, sep), JoinOffset(xs, sep, k) - |sep|, sep)
  {
    var n := |xs| - 1;
    var init := xs[..n];
    var j := Join(init, sep);
    JoinLength(init, sep);
    JoinOffsetPrefix(xs, init, sep, k);
    JoinLastPieces(j, sep, xs[n]);
    if k < n {
      JoinSeparatorAt(init, sep, k);
      PieceInPrefix(j, sep, JoinOffset(init, sep, k) - |sep|, sep);
      PieceInPrefix(j + sep, xs[n], JoinOffset(init, sep, k) - |sep|, sep);
    }
  }

  lemma JoinLastPieces(j: string, sep: string, last: string)
    ensures PieceAt(j + sep + last, |j|, sep)
    ensures PieceAt(j + sep + last, |j| + |sep|, last)
  {
    assert (j + sep + last)[|j|..|j| + |sep|] == sep;
    assert (j + sep + last)[|j| + |sep|..|j| + |sep| + |last|] == last;
  }

  lemma PieceInPrefix(a: string, b: string, at: int, piece: string)
    requires PieceAt(a, at, piece)
    ensures PieceAt(a + b, at, piece)
  {
    assert (a + b)[at..at + |piece|] == a[at..at + |piece|];
  }

  /** The offsets of the first `k` items depend only on those items. */
  lemma {:induction false} JoinOffsetPrefix(xs: seq<string>, init: seq<string>, sep: string, k: nat)
    requires k <= |init| <= |xs| && init == xs[..|init|]
    ensures JoinOffset(xs, sep, k) == JoinOffset(init, sep, k)
  {
    if k > 0 {
      JoinOffsetPrefix(xs, init, sep, k - 1);
      assert xs[k - 1] == init[k - 1];
    }
  }

  /** `s.split(sep)[-1]`: the text after the last `sep`, or all of `s` when it has none. */
  function LastPart(s: string, sep: char): (r: string)
    ensures sep !in r
    ensures |r| <= |s| && r == s[|s| - |r|..]
    ensures |r| < |s| ==> s[|s| - |r| - 1] == sep
  {
    if s == [] || s[|s| - 1] == sep then []
    else LastPart(s[..|s| - 1], sep) + [s[|s| - 1]]
  }

  /** The last part of `prefix + part` is `part` whenever `part` holds no
      separator and `prefix` is empty or ends in one: `LastPart` undoes that join. */
  lemma {:induction false} LastPartOfJoin(prefix: string, part: string, sep: char)
    requires sep !in part
    requires prefix == [] || prefix[|prefix| - 1] == sep
    ensures LastPart(prefix + part, sep) == part
  {
    if part != [] {
      var init := part[..|part| - 1];
      assert part[|part| - 1] in part;
      assert sep !in init by { assert forall c :: c in init ==> c in part; }
      LastPartOfJoin(prefix, init, sep);
      assert (prefix + part)[..|prefix + part| - 1] == prefix + init;
    } else {
      assert prefix + part == prefix;
    }
  }
}
