/** The Python string and path operations the scripts rely on, with their
    CPython semantics written out: `str.replace`, `str.split`/`str.join`,
    `str.strip`, `str.lower` (ASCII letters), `str.format` with one positional
    argument, `'{:0Nd}'` zero padding, and `os.path.join` / `os.path.basename`. */
module PyText {
  import opened Results
  import SeqFacts

  predicate IsPrefix(p: string, s: string) {
    |p| <= |s| && s[..|p|] == p
  }

  predicate IsSuffix(p: string, s: string) {
    |p| <= |s| && s[|s| - |p|..] == p
  }

  predicate OccursAt(s: string, pat: string, i: int) {
    0 <= i && i + |pat| <= |s| && s[i..i + |pat|] == pat
  }

  /** Python's `pat in s`. */
  predicate Contains(s: string, pat: string) {
    exists i :: 0 <= i <= |s| - |pat| && OccursAt(s, pat, i)
  }

  // ---------------------------------------------------------------------------
  // str.replace

  /** `s.replace(pat, rep)`: every non-overlapping occurrence of `pat`, found by
      scanning left to right, is replaced by `rep`; an empty `pat` matches
      before every character and at the end. */
  function Replace(s: string, pat: string, rep: string): string
    decreases |s|
  {
    if |pat| == 0 then
      if |s| == 0 then rep else rep + [s[0]] + Replace(s[1..], pat, rep)
    else if |s| < |pat| then s
    else if s[..|pat|] == pat then rep + Replace(s[|pat|..], pat, rep)
    else [s[0]] + Replace(s[1..], pat, rep)
  }

  /** Without an occurrence of `pat`, `replace` leaves the string as it is. */
  lemma {:induction false} ReplaceAbsent(s: string, pat: string, rep: string)
    requires |pat| > 0 && !Contains(s, pat)
    ensures Replace(s, pat, rep) == s
    decreases |s|
  {
    if |s| >= |pat| {
      assert !OccursAt(s, pat, 0);
      assert !Contains(s[1..], pat) by {
        forall i | OccursAt(s[1..], pat, i)
          ensures OccursAt(s, pat, i + 1)
        {
          assert s[1..][i..i + |pat|] == s[i + 1..i + 1 + |pat|];
        }
      }
      ReplaceAbsent(s[1..], pat, rep);
    }
  }

  /** `pat` occurs in `s` at `i` and nowhere else. */
  predicate OnlyOccurrence(s: string, pat: string, i: int) {
    OccursAt(s, pat, i) && forall j :: 0 <= j <= |s| && OccursAt(s, pat, j) ==> j == i
  }

  /** Before the first occurrence of `pat`, `replace` copies the text unchanged. */
  lemma {:induction false} ReplaceSkip(s: string, pat: string, rep: string, i: nat)
    requires |pat| > 0 && i <= |s|
    requires forall j :: 0 <= j < i ==> !OccursAt(s, pat, j)
    ensures Replace(s, pat, rep) == s[..i] + Replace(s[i..], pat, rep)
    decreases i
  {
    if i == 0 {
      assert s[i..] == s;
    } else if |s| < |pat| {
      ReplaceShort(s[i..], pat, rep);
      assert s[..i] + s[i..] == s;
    } else {
      assert !OccursAt(s, pat, 0);
      ReplaceStep(s, pat, rep);
      NoOccurrenceShift(s, pat, i);
      ReplaceSkip(s[1..], pat, rep, i - 1);
      ConsSlices(s, i, Replace(s[i..], pat, rep));
    }
  }

  lemma ConsSlices(s: string, i: nat, tail: string)
    requires 0 < i <= |s|
    ensures s[1..][i - 1..] == s[i..]
    ensures [s[0]] + (s[1..][..i - 1] + tail) == s[..i] + tail
  {
    assert [s[0]] + s[1..][..i - 1] == s[..i];
  }

  lemma ReplaceStep(s: string, pat: string, rep: string)
    requires 0 < |pat| <= |s| && !OccursAt(s, pat, 0)
    ensures Replace(s, pat, rep) == [s[0]] + Replace(s[1..], pat, rep)
  {
  }

  lemma NoOccurrenceShift(s: string, pat: string, i: nat)
    requires 0 < i <= |s|
    requires forall j :: 0 <= j < i ==> !OccursAt(s, pat, j)
    ensures forall j :: 0 <= j < i - 1 ==> !OccursAt(s[1..], pat, j)
  {
    forall j | 0 <= j < i - 1
      ensures !OccursAt(s[1..], pat, j)
    {
      assert !OccursAt(s, pat, j + 1);
      if j + |pat| <= |s| - 1 {
        assert s[1..][j..j + |pat|] == s[j + 1..j + 1 + |pat|];
      }
    }
  }

  lemma ReplaceShort(s: string, pat: string, rep: string)
    requires 0 < |pat| && |s| < |pat|
    ensures Replace(s, pat, rep) == s
  {
  }

  /** A pattern found exactly once is replaced there and nowhere else. */
  lemma ReplaceOnly(s: string, pat: string, rep: string, i: nat)
    requires |pat| > 0 && OnlyOccurrence(s, pat, i)
    ensures Replace(s, pat, rep) == s[..i] + rep + s[i + |pat|..]
  {
    ReplaceSkip(s, pat, rep, i);
    ReplaceAt(s[i..], pat, rep);
    assert s[i..][|pat|..] == s[i + |pat|..];
    NothingAfterOnly(s, pat, i);
    ReplaceAbsent(s[i + |pat|..], pat, rep);
  }

  lemma ReplaceAt(t: string, pat: string, rep: string)
    requires 0 < |pat| <= |t| && t[..|pat|] == pat
    ensures Replace(t, pat, rep) == rep + Replace(t[|pat|..], pat, rep)
  {
  }

  lemma NothingAfterOnly(s: string, pat: string, i: nat)
    requires |pat| > 0 && OnlyOccurrence(s, pat, i)
    ensures !Contains(s[i + |pat|..], pat)
  {
    var u := s[i + |pat|..];
    forall m | 0 <= m <= |u| - |pat| && OccursAt(u, pat, m)
      ensures false
    {
      assert u[m..m + |pat|] == s[i + |pat| + m..i + |pat| + m + |pat|];
      assert OccursAt(s, pat, i + |pat| + m);
    }
  }

  /** An independent reference for deleting a character: keep every other one. */
  function RemoveChar(s: string, c: char): (r: string)
    ensures c !in r
    ensures |r| <= |s|
    ensures forall x :: x in r ==> x in s
  {
    if |s| == 0 then ""
    else if s[0] == c then RemoveChar(s[1..], c)
    else [s[0]] + RemoveChar(s[1..], c)
  }

  /** `s.replace(c, '')` with a one-character pattern deletes exactly that character. */
  lemma {:induction false} ReplaceCharByNothing(s: string, c: char)
    ensures Replace(s, [c], "") == RemoveChar(s, c)
    decreases |s|
  {
    if |s| > 0 {
      ReplaceCharByNothing(s[1..], c);
    }
  }

  lemma {:induction false} RemoveCharAbsent(s: string, c: char)
    requires c !in s
    ensures RemoveChar(s, c) == s
    decreases |s|
  {
    if |s| > 0 {
      assert c !in s[1..];
      RemoveCharAbsent(s[1..], c);
    }
  }

  /** Deleting a character works piece by piece. */
  lemma {:induction false} RemoveCharAppend(a: string, b: string, c: char)
    ensures RemoveChar(a + b, c) == RemoveChar(a, c) + RemoveChar(b, c)
    decreases |a|
  {
    if |a| > 0 {
      assert (a + b)[1..] == a[1..] + b;
      RemoveCharAppend(a[1..], b, c);
    } else {
      assert a + b == b;
    }
  }

  // ---------------------------------------------------------------------------
  // str.split / str.join

  /** `s.split(sep)` for a one-character separator: the pieces between
      separators, empty pieces included, so the result is never empty. */
  function Split(s: string, sep: char): (r: seq<string>)
    ensures |r| >= 1
    ensures forall k :: 0 <= k < |r| ==> sep !in r[k]
    decreases |s|
  {
    if |s| == 0 then [""]
    else if s[0] == sep then [""] + Split(s[1..], sep)
    else
      var t := Split(s[1..], sep);
      [[s[0]] + t[0]] + t[1..]
  }

  /** `sep.join(parts)`. */
  function JoinWith(sep: string, parts: seq<string>): string
    decreases |parts|
  {
    if |parts| == 0 then ""
    else if |parts| == 1 then parts[0]
    else parts[0] + sep + JoinWith(sep, parts[1..])
  }

  lemma JoinWithCons(sep: string, x: string, xs: seq<string>)
    requires |xs| >= 1
    ensures JoinWith(sep, [x] + xs) == x + sep + JoinWith(sep, xs)
  {
    assert ([x] + xs)[1..] == xs;
  }

  /** Joining two non-empty lists is joining their joins. */
  lemma {:induction false} JoinWithAppend(sep: string, xs: seq<string>, ys: seq<string>)
    requires |xs| >= 1 && |ys| >= 1
    ensures JoinWith(sep, xs + ys) == JoinWith(sep, xs) + sep + JoinWith(sep, ys)
    decreases |xs|
  {
    if |xs| == 1 {
      JoinWithCons(sep, xs[0], ys);
      assert xs + ys == [xs[0]] + ys;
    } else {
      assert xs + ys == [xs[0]] + (xs[1..] + ys);
      JoinWithCons(sep, xs[0], xs[1..] + ys);
      JoinWithAppend(sep, xs[1..], ys);
      JoinWithCons(sep, xs[0], xs[1..]);
      assert [xs[0]] + xs[1..] == xs;
    }
  }

  /** A piece free of the separator followed by the separator splits off as one piece. */
  lemma {:induction false} SplitAfterPiece(a: string, sep: char, b: string)
    requires sep !in a
    ensures Split(a + [sep] + b, sep) == [a] + Split(b, sep)
    decreases |a|
  {
    if |a| == 0 {
      assert a + [sep] + b == [sep] + b;
      assert ([sep] + b)[1..] == b;
    } else {
      var s := a + [sep] + b;
      assert s[0] == a[0];
      assert s[1..] == a[1..] + [sep] + b;
      SplitAfterPiece(a[1..], sep, b);
      assert [a[0]] + a[1..] == a;
    }
  }

  /** Splitting what was joined gives back the pieces, when none contains the separator. */
  lemma {:induction false} SplitJoin(parts: seq<string>, sep: char)
    requires |parts| >= 1
    requires forall k :: 0 <= k < |parts| ==> sep !in parts[k]
    ensures Split(JoinWith([sep], parts), sep) == parts
    decreases |parts|
  {
    if |parts| == 1 {
      SplitNoSeparator(parts[0], sep);
    } else {
      SplitJoin(parts[1..], sep);
      SplitAfterPiece(parts[0], sep, JoinWith([sep], parts[1..]));
      assert [parts[0]] + parts[1..] == parts;
    }
  }

  /** Splitting at one separator splits the two sides independently. */
  lemma {:induction false} SplitAround(a: string, sep: char, b: string)
    ensures Split(a + [sep] + b, sep) == Split(a, sep) + Split(b, sep)
    decreases |a|
  {
    if |a| == 0 {
      assert a + [sep] + b == [sep] + b;
      SplitCons(sep, b, sep);
    } else {
      var rest := a[1..] + [sep] + b;
      assert a + [sep] + b == [a[0]] + rest;
      assert a == [a[0]] + a[1..];
      SplitCons(a[0], rest, sep);
      SplitCons(a[0], a[1..], sep);
      SplitAround(a[1..], sep, b);
      var ta, tb := Split(a[1..], sep), Split(b, sep);
      if a[0] != sep {
        ConsFirst(a[0], ta, tb);
      } else {
        SeqFacts.ConsAssoc("", ta, tb);
      }
    }
  }

  /** One step of `Split`: a separator starts a new piece, anything else
      extends the first piece of the rest. */
  lemma SplitCons(c: char, rest: string, sep: char)
    ensures Split([c] + rest, sep) ==
      if c == sep then [""] + Split(rest, sep) else [[c] + Split(rest, sep)[0]] + Split(rest, sep)[1..]
  {
    assert ([c] + rest)[0] == c;
    assert ([c] + rest)[1..] == rest;
  }

  lemma ConsFirst(c: char, ta: seq<string>, tb: seq<string>)
    requires |ta| >= 1
    ensures [[c] + (ta + tb)[0]] + (ta + tb)[1..] == ([[c] + ta[0]] + ta[1..]) + tb
  {
    assert (ta + tb)[0] == ta[0];
    assert (ta + tb)[1..] == ta[1..] + tb;
  }

  /** The pieces of a string lacking `c` lack it too. */
  lemma {:induction false} SplitAvoids(s: string, sep: char, c: char)
    requires c !in s
    ensures forall k :: 0 <= k < |Split(s, sep)| ==> c !in Split(s, sep)[k]
    decreases |s|
  {
    if |s| > 0 {
      assert c != s[0];
      assert c !in s[1..];
      SplitAvoids(s[1..], sep, c);
    }
  }

  /** Joining pieces lacking `c` with a separator lacking `c` gives a string lacking `c`. */
  lemma {:induction false} JoinWithAvoids(sep: string, parts: seq<string>, c: char)
    requires c !in sep
    requires forall k :: 0 <= k < |parts| ==> c !in parts[k]
    ensures c !in JoinWith(sep, parts)
    decreases |parts|
  {
    if |parts| > 1 {
      JoinWithAvoids(sep, parts[1..], c);
    }
  }

  lemma {:induction false} SplitNoSeparator(s: string, sep: char)
    requires sep !in s
    ensures Split(s, sep) == [s]
    decreases |s|
  {
    if |s| > 0 {
      SplitNoSeparator(s[1..], sep);
      assert [s[0]] + s[1..] == s;
    }
  }

  /** Joining the pieces of a split gives back the string. */
  lemma {:induction false} JoinSplit(s: string, sep: char)
    ensures JoinWith([sep], Split(s, sep)) == s
    decreases |s|
  {
    if |s| > 0 {
      var t := Split(s[1..], sep);
      JoinSplit(s[1..], sep);
      if s[0] == sep {
        JoinWithCons([sep], "", t);
        assert [sep] + s[1..] == s;
      } else if |t| == 1 {
        assert [s[0]] + s[1..] == s;
      } else {
        JoinWithCons([sep], t[0], t[1..]);
        assert [t[0]] + t[1..] == t;
        JoinWithCons([sep], [s[0]] + t[0], t[1..]);
        assert [s[0]] + s[1..] == s;
      }
    }
  }

  // ---------------------------------------------------------------------------
  // str.strip / str.lower

  /** `s.rstrip(c)` for one character `c`. */
  function StripRight(s: string, c: char): (r: string)
    ensures IsPrefix(r, s)
    ensures |r| == 0 || r[|r| - 1] != c
    ensures forall k :: |r| <= k < |s| ==> s[k] == c
    decreases |s|
  {
    if |s| > 0 && s[|s| - 1] == c then StripRight(s[..|s| - 1], c) else s
  }

  /** `s.lstrip(c)` for one character `c`. */
  function StripLeft(s: string, c: char): (r: string)
    ensures IsSuffix(r, s)
    ensures |r| == 0 || r[0] != c
    ensures forall k :: 0 <= k < |s| - |r| ==> s[k] == c
    decreases |s|
  {
    if |s| > 0 && s[0] == c then StripLeft(s[1..], c) else s
  }

  /** `s.strip(c)`: leading and trailing runs of `c` removed. */
  function Strip(s: string, c: char): (r: string)
    ensures |r| == 0 || (r[0] != c && r[|r| - 1] != c)
    ensures |r| <= |s|
  {
    var t := StripRight(s, c);
    var r := StripLeft(t, c);
    assert |r| > 0 ==> r[|r| - 1] == t[|t| - 1];
    r
  }

  /** Stripping twice is stripping once. */
  lemma StripIdempotent(s: string, c: char)
    ensures Strip(Strip(s, c), c) == Strip(s, c)
  {
    StripUntouched(Strip(s, c), c);
  }

  /** A string with neither a leading nor a trailing `c` is left as it is. */
  lemma StripUntouched(s: string, c: char)
    requires |s| == 0 || (s[0] != c && s[|s| - 1] != c)
    ensures Strip(s, c) == s
  {
  }

  predicate IsUpper(ch: char) {
    'A' <= ch <= 'Z'
  }

  function LowerChar(ch: char): char {
    if IsUpper(ch) then (ch as int + 32) as char else ch
  }

  /** `s.lower()` restricted to ASCII letters. */
  function Lower(s: string): (r: string)
    ensures |r| == |s|
    ensures forall k :: 0 <= k < |s| ==> r[k] == LowerChar(s[k])
  {
    seq(|s|, k requires 0 <= k < |s| => LowerChar(s[k]))
  }

  // ---------------------------------------------------------------------------
  // Decimal integers

  predicate IsDigit(ch: char) {
    '0' <= ch <= '9'
  }

  predicate AllDigits(s: string) {
    forall k :: 0 <= k < |s| ==> IsDigit(s[k])
  }

  function DigitChar(d: nat): char
    requires d < 10
  {
    ('0' as int + d) as char
  }

  /** `str(n)` for a natural number: its decimal digits, no leading zero. */
  function NatToString(n: nat): (r: string)
    ensures |r| >= 1 && AllDigits(r)
    ensures |r| > 1 ==> r[0] != '0'
  {
    if n < 10 then [DigitChar(n)] else NatToString(n / 10) + [DigitChar(n % 10)]
  }

  /** The value of a string of decimal digits (`int(s)` for such a string). */
  function ParseNat(s: string): nat
    requires AllDigits(s)
  {
    if |s| == 0 then 0 else 10 * ParseNat(s[..|s| - 1]) + (s[|s| - 1] as int - '0' as int)
  }

  /** Reading back the decimal form gives the number. */
  lemma {:induction false} ParseNatToString(n: nat)
    ensures ParseNat(NatToString(n)) == n
  {
    if n >= 10 {
      var s := NatToString(n);
      assert s[..|s| - 1] == NatToString(n / 10);
      ParseNatToString(n / 10);
    }
  }

  /** Distinct numbers have distinct decimal forms. */
  lemma NatToStringInjective(m: nat, n: nat)
    requires NatToString(m) == NatToString(n)
    ensures m == n
  {
    ParseNatToString(m);
    ParseNatToString(n);
  }

  /** Left padding to `width` characters, as `f'{n:0{width}d}'` does for `n >= 0`. */
  function PadLeft(s: string, width: nat, fill: char): (r: string)
    ensures |r| == if |s| >= width then |s| else width
    ensures IsSuffix(s, r)
    ensures forall k :: 0 <= k < |r| - |s| ==> r[k] == fill
  {
    if |s| >= width then s
    else
      var z := seq(width - |s|, _ => fill);
      assert (z + s)[|z|..] == s;
      z + s
  }

  function ZeroPad(n: nat, width: nat): (r: string)
    ensures AllDigits(r)
  {
    PadLeft(NatToString(n), width, '0')
  }

  /** Leading zeros do not change the value of a decimal string. */
  lemma {:induction false} ParseNatLeadingZeros(z: string, s: string)
    requires AllDigits(s)
    requires forall k :: 0 <= k < |z| ==> z[k] == '0'
    ensures AllDigits(z + s)
    ensures ParseNat(z + s) == ParseNat(s)
    decreases |s|, |z|
  {
    if |s| == 0 {
      if |z| > 0 {
        assert (z + s)[..|z + s| - 1] == z[..|z| - 1] + s;
        ParseNatLeadingZeros(z[..|z| - 1], s);
      }
    } else {
      assert (z + s)[..|z + s| - 1] == z + s[..|s| - 1];
      ParseNatLeadingZeros(z, s[..|s| - 1]);
    }
  }

  /** The zero-padded form still reads back as the number. */
  lemma ParseZeroPad(n: nat, width: nat)
    ensures ParseNat(ZeroPad(n, width)) == n
  {
    var s := NatToString(n);
    var r := ZeroPad(n, width);
    var z := r[..|r| - |s|];
    assert r == z + s;
    ParseNatLeadingZeros(z, s);
    ParseNatToString(n);
  }

  function Pow10(k: nat): nat {
    if k == 0 then 1 else 10 * Pow10(k - 1)
  }

  /** A number below `10^k` has at most `k` digits. */
  lemma {:induction false} NatToStringLength(n: nat, k: nat)
    requires 1 <= k && n < Pow10(k)
    ensures |NatToString(n)| <= k
    decreases k
  {
    if n >= 10 {
      assert k >= 2;
      assert n / 10 < Pow10(k - 1);
      NatToStringLength(n / 10, k - 1);
    }
  }

  /** `f'{n:0{k}d}'` of a number below `10^k` is exactly `k` characters wide. */
  lemma ZeroPadWidth(n: nat, k: nat)
    requires 1 <= k && n < Pow10(k)
    ensures |ZeroPad(n, k)| == k
  {
    NatToStringLength(n, k);
  }

  /** Python's `f'{b}'` for a bool. */
  function BoolText(b: bool): string {
    if b then "True" else "False"
  }

  /** Python's `f'{x}'` for an optional string: `None` prints as `None`. */
  function OptText(x: Option<string>): string {
    match x
    case Some(v) => v
    case None => "None"
  }

  // ---------------------------------------------------------------------------
  // str.format with a single positional argument

  /** `t.format(arg)`: `{}` is the argument (a second `{}` asks for a missing
      positional argument), `{{` and `}}` are literal braces, and any other brace
      (numbered or named fields, format specs, a lone brace) is reported as
      `FormatError`. */
  function Format(t: string, arg: string): Result<string> {
    FormatFrom(t, arg, false)
  }

  function FormatFrom(t: string, arg: string, used: bool): Result<string>
    decreases |t|
  {
    if |t| == 0 then Ok("")
    else if t[0] == '{' then
      if |t| >= 2 && t[1] == '{' then Prefixed("{", FormatFrom(t[2..], arg, used))
      else if |t| >= 2 && t[1] == '}' then
        if used then Err(IndexError) else Prefixed(arg, FormatFrom(t[2..], arg, true))
      else Err(FormatError)
    else if t[0] == '}' then
      if |t| >= 2 && t[1] == '}' then Prefixed("}", FormatFrom(t[2..], arg, used))
      else Err(FormatError)
    else Prefixed([t[0]], FormatFrom(t[1..], arg, used))
  }

  function Prefixed(p: string, r: Result<string>): Result<string> {
    match r
    case Ok(v) => Ok(p + v)
    case Err(e) => Err(e)
  }

  predicate NoBraces(s: string) {
    '{' !in s && '}' !in s
  }

  lemma {:induction false} FormatPlain(t: string, arg: string, used: bool)
    requires NoBraces(t)
    ensures FormatFrom(t, arg, used) == Ok(t)
    decreases |t|
  {
    if |t| > 0 {
      FormatPlain(t[1..], arg, used);
      assert [t[0]] + t[1..] == t;
    }
  }

  /** A template with a single `{}` and no other brace puts the argument in its place. */
  lemma {:induction false} FormatOneHole(a: string, b: string, arg: string)
    requires NoBraces(a) && NoBraces(b)
    ensures Format(a + "{}" + b, arg) == Ok(a + arg + b)
    decreases |a|
  {
    FormatOneHoleFrom(a, b, arg);
  }

  lemma {:induction false} FormatOneHoleFrom(a: string, b: string, arg: string)
    requires NoBraces(a) && NoBraces(b)
    ensures FormatFrom(a + "{}" + b, arg, false) == Ok(a + arg + b)
    decreases |a|
  {
    if |a| == 0 {
      SeqFacts.EmptyLeft(a, "{}" + b);
      SeqFacts.EmptyLeft(a, arg + b);
      assert a + "{}" + b == a + ("{}" + b);
      assert a + arg + b == a + (arg + b);
      SeqFacts.DropPrefix("{}", b);
      FormatPlain(b, arg, true);
    } else {
      SeqFacts.Cons3(a, "{}", b);
      SeqFacts.Cons3(a, arg, b);
      FormatOneHoleFrom(a[1..], b, arg);
    }
  }

  // ---------------------------------------------------------------------------
  // os.path

  predicate IsAbsolute(p: string) {
    |p| > 0 && p[0] == '/'
  }

  /** `os.path.join(a, b)` (POSIX): an absolute `b` replaces `a`; otherwise a
      `/` is inserted unless `a` is empty or already ends with one. */
  function PathJoin(a: string, b: string): (r: string)
    ensures IsSuffix(b, r)
    ensures !IsAbsolute(b) ==> IsPrefix(a, r)
  {
    if IsAbsolute(b) then b
    else if |a| == 0 || a[|a| - 1] == '/' then a + b
    else a + "/" + b
  }

  /** `os.path.basename(p)`: what follows the last `/`. */
  function Basename(p: string): (r: string)
    ensures '/' !in r
    ensures IsSuffix(r, p)
    ensures |r| < |p| ==> p[|p| - |r| - 1] == '/'
  {
    if |p| == 0 || p[|p| - 1] == '/' then ""
    else
      var r := Basename(p[..|p| - 1]) + [p[|p| - 1]];
      assert p[..|p| - 1][|p| - |r|..] + [p[|p| - 1]] == p[|p| - |r|..];
      r
  }

  /** Joining relative names onto the same directory keeps them apart. */
  lemma PathJoinInjective(a: string, x: string, y: string)
    requires !IsAbsolute(x) && !IsAbsolute(y)
    requires PathJoin(a, x) == PathJoin(a, y)
    ensures x == y
  {
    var pre := if |a| == 0 || a[|a| - 1] == '/' then a else a + "/";
    assert PathJoin(a, x) == pre + x && PathJoin(a, y) == pre + y;
    assert x == (pre + x)[|pre|..];
  }

  /** A relative name without `/` joined onto any directory is the basename of the result. */
  lemma BasenameOfJoin(a: string, b: string)
    requires |b| > 0 && '/' !in b
    ensures Basename(PathJoin(a, b)) == b
  {
    var r := PathJoin(a, b);
    var x := if |a| == 0 || a[|a| - 1] == '/' then a else a + "/";
    assert r == x + b;
    BasenameAfter(x, b);
  }

  /** The basename of `x + b` is `b` when `b` has no `/` and `x` is empty or ends with `/`. */
  lemma {:induction false} BasenameAfter(x: string, b: string)
    requires '/' !in b
    requires |x| == 0 || x[|x| - 1] == '/'
    ensures Basename(x + b) == b
    decreases |b|
  {
    if |b| > 0 {
      var s := x + b;
      assert s[..|s| - 1] == x + b[..|b| - 1];
      BasenameAfter(x, b[..|b| - 1]);
      assert b[..|b| - 1] + [b[|b| - 1]] == b;
    } else {
      assert x + b == x;
    }
  }

  // ---------------------------------------------------------------------------
  // pathlib.PurePosixPath

  /** A component `pathlib` keeps: non-empty, not `.`, without `/`. */
  predicate IsPart(p: string) {
    p != "" && p != "." && '/' !in p
  }

  function KeepParts(ps: seq<string>): (r: seq<string>)
    ensures forall k :: 0 <= k < |r| ==> r[k] in ps && r[k] != "" && r[k] != "."
  {
    if |ps| == 0 then []
    else if ps[0] == "" || ps[0] == "." then KeepParts(ps[1..])
    else [ps[0]] + KeepParts(ps[1..])
  }

  lemma {:induction false} KeepPartsOfParts(ps: seq<string>)
    requires forall k :: 0 <= k < |ps| ==> IsPart(ps[k])
    ensures KeepParts(ps) == ps
  {
    if |ps| > 0 {
      KeepPartsOfParts(ps[1..]);
      assert [ps[0]] + ps[1..] == ps;
    }
  }

  /** The components of `PurePosixPath(s)`: empty and `.` pieces between slashes are dropped. */
  function PathParts(s: string): (r: seq<string>)
    ensures forall k :: 0 <= k < |r| ==> IsPart(r[k])
  {
    KeepParts(Split(s, '/'))
  }

  /** The components of a path text lacking `c` lack it too. */
  lemma PathPartsAvoid(s: string, c: char)
    requires c !in s
    ensures forall k :: 0 <= k < |PathParts(s)| ==> c !in PathParts(s)[k]
  {
    SplitAvoids(s, '/', c);
  }

  lemma {:induction false} KeepPartsAppend(xs: seq<string>, ys: seq<string>)
    ensures KeepParts(xs + ys) == KeepParts(xs) + KeepParts(ys)
    decreases |xs|
  {
    if |xs| > 0 {
      assert (xs + ys)[0] == xs[0];
      assert (xs + ys)[1..] == xs[1..] + ys;
      KeepPartsAppend(xs[1..], ys);
    } else {
      assert xs + ys == ys;
    }
  }

  /** The components on both sides of a `/` are kept in turn. */
  lemma PathPartsAround(a: string, b: string)
    ensures PathParts(a + "/" + b) == PathParts(a) + PathParts(b)
  {
    assert a + "/" + b == a + ['/'] + b;
    SplitAround(a, '/', b);
    KeepPartsAppend(Split(a, '/'), Split(b, '/'));
  }

  lemma PathPartsOfPart(b: string)
    requires IsPart(b)
    ensures PathParts(b) == [b]
  {
    SplitNoSeparator(b, '/');
    assert KeepParts([b]) == [b];
  }

  lemma PathPartsEmpty()
    ensures PathParts("") == []
  {
    assert Split("", '/') == [""];
    assert KeepParts([""]) == [];
  }

  /** `os.path.join` of a single relative component adds exactly that component. */
  lemma PathPartsOfJoin(a: string, b: string)
    requires IsPart(b)
    ensures PathParts(PathJoin(a, b)) == PathParts(a) + [b]
    ensures IsAbsolute(PathJoin(a, b)) == IsAbsolute(a)
  {
    PathPartsOfPart(b);
    PathPartsEmpty();
    if |a| == 0 {
      assert PathJoin(a, b) == b;
    } else if a[|a| - 1] == '/' {
      var a0 := a[..|a| - 1];
      assert a == a0 + "/" + "";
      PathPartsAround(a0, "");
      assert PathJoin(a, b) == a0 + "/" + b;
      PathPartsAround(a0, b);
    } else {
      PathPartsAround(a, b);
    }
  }

  /** `str()` of a pure path with the given root and components. */
  function PathText(root: bool, parts: seq<string>): string {
    if root then "/" + JoinWith("/", parts)
    else if |parts| == 0 then "."
    else JoinWith("/", parts)
  }

  /** Printing a pure path and parsing the text again gives the same root and components. */
  lemma PathTextParses(root: bool, parts: seq<string>)
    requires forall k :: 0 <= k < |parts| ==> IsPart(parts[k])
    ensures IsAbsolute(PathText(root, parts)) == root
    ensures PathParts(PathText(root, parts)) == parts
  {
    var t := PathText(root, parts);
    if |parts| > 0 {
      SplitJoin(parts, '/');
      KeepPartsOfParts(parts);
      assert !IsAbsolute(JoinWith("/", parts)) by {
        JoinHead("/", parts);
      }
    }
    if root {
      if |parts| == 0 {
        assert t == "" + ['/'] + "";
        SplitAfterPiece("", '/', "");
        assert Split(t, '/') == ["", ""];
        assert KeepParts([""]) == [];
        assert KeepParts(["", ""]) == KeepParts([""]);
      } else {
        assert t == "" + ['/'] + JoinWith("/", parts);
        SplitAfterPiece("", '/', JoinWith("/", parts));
      }
    }
  }

  /** A path printed from components lacking `c` lacks it, when `c` is neither `/` nor `.`. */
  lemma PathTextAvoids(root: bool, parts: seq<string>, c: char)
    requires c != '/' && c != '.'
    requires forall k :: 0 <= k < |parts| ==> c !in parts[k]
    ensures c !in PathText(root, parts)
  {
    JoinWithAvoids("/", parts, c);
  }

  /** A join of non-empty pieces starts with the first piece. */
  lemma {:induction false} JoinHead(sep: string, parts: seq<string>)
    requires |parts| >= 1
    ensures IsPrefix(parts[0], JoinWith(sep, parts))
  {
  }

  /** `Path(s).parent`, printed. */
  function PathParent(s: string): string {
    var ps := PathParts(s);
    PathText(IsAbsolute(s), if |ps| == 0 then ps else ps[..|ps| - 1])
  }

  /** `Path(s).name`: the last component, or empty. */
  function PathName(s: string): string {
    var ps := PathParts(s);
    if |ps| == 0 then "" else ps[|ps| - 1]
  }

  /** `Path(s).joinpath(name)` for a single component `name`, printed. */
  function JoinPath(s: string, name: string): string
    requires IsPart(name)
  {
    PathText(IsAbsolute(s), PathParts(s) + [name])
  }

  /** The parent keeps the root and all components but the last. */
  lemma PathParentParts(s: string)
    ensures var ps := PathParts(s);
      PathParts(PathParent(s)) == (if |ps| == 0 then ps else ps[..|ps| - 1])
    ensures IsAbsolute(PathParent(s)) == IsAbsolute(s)
  {
    var ps := PathParts(s);
    var parent := if |ps| == 0 then ps else ps[..|ps| - 1];
    assert forall k :: 0 <= k < |parent| ==> parent[k] == ps[k];
    PathTextParses(IsAbsolute(s), parent);
  }

  /** Joining a component appends it and keeps the root. */
  lemma JoinPathParts(s: string, name: string)
    requires IsPart(name)
    ensures PathParts(JoinPath(s, name)) == PathParts(s) + [name]
    ensures IsAbsolute(JoinPath(s, name)) == IsAbsolute(s)
  {
    PathTextParses(IsAbsolute(s), PathParts(s) + [name]);
  }
}
