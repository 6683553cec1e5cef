/**
 * The slice of Python's `str` behaviour that the parsers rely on:
 * `strip`/`lstrip`, `lower`, whitespace `split()`, `split(sep)`,
 * `rpartition`, `startswith`, `in` on strings and `int()`.
 *
 * Whitespace is the Latin-1 part of Python's `str.isspace`; case mapping
 * is ASCII only; `int()` accepts an optional sign followed by ASCII digits.
 */
module Text {

  /** Python's `str.isspace()` restricted to the Latin-1 range. */
  predicate IsSpace(c: char)
  {
    c == ' ' || c == '\t' || c == '\n' || c == '\r' || c == '\U{B}' || c == '\U{C}'
    || c == '\U{1C}' || c == '\U{1D}' || c == '\U{1E}' || c == '\U{1F}'
    || c == '\U{85}' || c == '\U{A0}'
  }

  predicate NoSpace(s: string)
  {
    forall i :: 0 <= i < |s| ==> !IsSpace(s[i])
  }

  // ---------------------------------------------------------------------
  // strip / lstrip

  function LStrip(s: string): (r: string)
    ensures |r| <= |s| && r == s[|s| - |r|..]
    ensures r == [] || !IsSpace(r[0])
    ensures forall i :: 0 <= i < |s| - |r| ==> IsSpace(s[i])
  {
    if |s| > 0 && IsSpace(s[0]) then LStrip(s[1..]) else s
  }

  function RStrip(s: string): (r: string)
    ensures |r| <= |s| && r == s[..|r|]
    ensures r == [] || !IsSpace(r[|r| - 1])
    ensures forall i :: |r| <= i < |s| ==> IsSpace(s[i])
  {
    if |s| > 0 && IsSpace(s[|s| - 1]) then RStrip(s[..|s| - 1]) else s
  }

  /** `s[..i]` and `s[j..]` are whitespace only. */
  predicate Margins(s: string, i: int, j: int)
  {
    0 <= i <= j <= |s| && (forall k :: 0 <= k < i ==> IsSpace(s[k])) && (forall k :: j <= k < |s| ==> IsSpace(s[k]))
  }

  /** `str.strip()`: `s` without its leading and trailing whitespace. */
  function Strip(s: string): (r: string)
    ensures |r| <= |s|
    ensures r == [] || (!IsSpace(r[0]) && !IsSpace(r[|r| - 1]))
  {
    LStrip(RStrip(s))
  }

  /** `strip()` keeps exactly the slice of `s` between its leading and trailing whitespace. */
  lemma StripTrims(s: string)
    ensures exists i, j :: Margins(s, i, j) && Strip(s) == s[i..j]
  {
    var t := RStrip(s);
    var r := LStrip(t);
    var i, j := |t| - |r|, |t|;
    assert r == s[i..j] by {
      assert r == t[i..] && t == s[..j];
    }
    assert forall k :: 0 <= k < i ==> IsSpace(s[k]) by {
      assert forall k :: 0 <= k < i ==> t[k] == s[k];
    }
    assert Margins(s, i, j);
  }

  /** A string without surrounding whitespace is its own `strip()`. */
  lemma StripOfStripped(s: string)
    requires s == [] || (!IsSpace(s[0]) && !IsSpace(s[|s| - 1]))
    ensures Strip(s) == s
  {
  }

  /** `strip()` is idempotent, so every stored, stripped value is a fixed point. */
  lemma StripIdempotent(s: string)
    ensures Strip(Strip(s)) == Strip(s)
  {
    StripOfStripped(Strip(s));
  }

  /** Stripping removes only whitespace: a non-blank string stays non-blank. */
  lemma {:induction false} StripEmptyIffBlank(s: string)
    ensures Strip(s) == [] <==> forall i :: 0 <= i < |s| ==> IsSpace(s[i])
  {
    if Strip(s) == [] {
      var t := RStrip(s);
      assert LStrip(t) == [];
      assert |t| == 0;
    } else {
      var t := RStrip(s);
      var r := LStrip(t);
      var k := |t| - |r|;
      assert t[k] == r[0] && s[k] == t[k];
      assert !IsSpace(s[k]);
    }
  }

  // ---------------------------------------------------------------------
  // lower

  function LowerChar(c: char): char
  {
    if 'A' <= c <= 'Z' then (c as int + 32) as char else c
  }

  /** `str.lower()` for ASCII letters; every other character is kept. */
  function Lower(s: string): (r: string)
    ensures |r| == |s|
    ensures forall i :: 0 <= i < |s| ==> r[i] == LowerChar(s[i])
  {
    seq(|s|, i requires 0 <= i < |s| => LowerChar(s[i]))
  }

  lemma LowerAppend(a: string, b: string)
    ensures Lower(a + b) == Lower(a) + Lower(b)
  {
  }

  // ---------------------------------------------------------------------
  // prefixes, substrings

  predicate StartsWith(s: string, p: string)
  {
    |p| <= |s| && s[..|p|] == p
  }

  /** Python's `sub in s` for strings. */
  predicate Contains(s: string, sub: string)
  {
    StartsWith(s, sub) || (|s| > 0 && Contains(s[1..], sub))
  }

  /** Python's `s[:n]` for a non-negative `n`. */
  function Take(s: string, n: nat): (r: string)
    ensures |r| == if n < |s| then n else |s|
    ensures StartsWith(s, r)
  {
    if n < |s| then s[..n] else s
  }

  /** Python's `s[n:]` for a non-negative `n`. */
  function Drop(s: string, n: nat): (r: string)
    ensures Take(s, n) + r == s
  {
    if n < |s| then s[n..] else []
  }

  // ---------------------------------------------------------------------
  // split() on whitespace

  /** Index of the first whitespace character of `s`, or `|s|`. */
  function WordEnd(s: string): (k: nat)
    ensures k <= |s| && NoSpace(s[..k])
    ensures k < |s| ==> IsSpace(s[k])
  {
    if |s| == 0 || IsSpace(s[0]) then 0 else 1 + WordEnd(s[1..])
  }

  /** `str.split()` with no argument: the maximal runs of non-whitespace. */
  function Words(s: string): (r: seq<string>)
    ensures forall i :: 0 <= i < |r| ==> r[i] != [] && NoSpace(r[i])
    decreases |s|
  {
    if |s| == 0 then []
    else if IsSpace(s[0]) then Words(s[1..])
    else
      var k := WordEnd(s);
      [s[..k]] + Words(s[k..])
  }

  lemma WordsAtWord(s: string)
    requires s != [] && !IsSpace(s[0])
    ensures Words(s) == [s[..WordEnd(s)]] + Words(s[WordEnd(s)..])
  {
  }

  lemma WordsAtSpace(s: string)
    requires s != [] && IsSpace(s[0])
    ensures Words(s) == Words(s[1..])
  {
  }

  lemma WordEndOfWord(w: string, rest: string)
    requires NoSpace(w)
    requires rest == [] || IsSpace(rest[0])
    ensures WordEnd(w + rest) == |w|
    decreases |w|
  {
    if |w| > 0 {
      assert (w + rest)[1..] == w[1..] + rest;
      WordEndOfWord(w[1..], rest);
    }
  }

  /** A space-free word followed by a space is the first element of `split()`. */
  lemma WordsCons(w: string, rest: string)
    requires w != [] && NoSpace(w)
    ensures Words(w + " " + rest) == [w] + Words(rest)
  {
    var tail: string := [' '] + rest;
    var s := w + tail;
    assert w + " " + rest == s;
    WordEndOfWord(w, tail);
    assert s[0] == w[0];
    WordsAtWord(s);
    assert s[..|w|] == w;
    assert s[|w|..] == tail;
    WordsAtSpace(tail);
    assert tail[1..] == rest;
  }

  /** A single space-free word splits to itself. */
  lemma WordsSingle(w: string)
    requires w != [] && NoSpace(w)
    ensures Words(w) == [w]
  {
    WordEndOfWord(w, []);
    assert w + [] == w;
    assert w[|w|..] == [];
  }

  /** `' '.join(ws)`. */
  function Unwords(ws: seq<string>): string
  {
    if |ws| == 0 then []
    else if |ws| == 1 then ws[0]
    else ws[0] + " " + Unwords(ws[1..])
  }

  predicate IsWord(w: string)
  {
    w != [] && NoSpace(w)
  }

  /** Joining space-free words with single spaces and splitting again gives the words back. */
  lemma {:induction false} WordsUnwords(ws: seq<string>)
    requires forall i :: 0 <= i < |ws| ==> IsWord(ws[i])
    ensures Words(Unwords(ws)) == ws
  {
    if |ws| == 1 {
      WordsSingle(ws[0]);
    } else if |ws| > 1 {
      WordsUnwords(ws[1..]);
      WordsCons(ws[0], Unwords(ws[1..]));
      assert [ws[0]] + ws[1..] == ws;
    }
  }

  /** Lowercasing maps over the joined words. */
  lemma {:induction false} LowerUnwords(ws: seq<string>)
    ensures Lower(Unwords(ws)) == Unwords(LowerAll(ws))
  {
    if |ws| > 1 {
      LowerUnwords(ws[1..]);
      LowerAppend(ws[0] + " ", Unwords(ws[1..]));
      LowerAppend(ws[0], " ");
      assert LowerAll(ws)[1..] == LowerAll(ws[1..]);
    }
  }

  function LowerAll(ws: seq<string>): (r: seq<string>)
    ensures |r| == |ws|
    ensures forall i :: 0 <= i < |ws| ==> r[i] == Lower(ws[i])
  {
    seq(|ws|, i requires 0 <= i < |ws| => Lower(ws[i]))
  }

  /** A character other than a space that no word contains is not in their join. */
  lemma {:induction false} UnwordsExcludes(ws: seq<string>, c: char)
    requires c != ' '
    requires forall i :: 0 <= i < |ws| ==> c !in ws[i]
    ensures c !in Unwords(ws)
  {
    if |ws| > 1 {
      UnwordsExcludes(ws[1..], c);
    }
  }

  /** Text without ASCII capitals is its own lowercase. */
  lemma LowerOfLower(s: string)
    requires forall i :: 0 <= i < |s| ==> !('A' <= s[i] <= 'Z')
    ensures Lower(s) == s
  {
  }

  // ---------------------------------------------------------------------
  // split(sep)

  /** `str.split(c)` for a one-character separator: always at least one piece. */
  function SplitOn(s: string, c: char): (r: seq<string>)
    ensures |r| >= 1
    ensures forall i :: 0 <= i < |r| ==> c !in r[i]
  {
    if |s| == 0 then [[]]
    else if s[0] == c then [[]] + SplitOn(s[1..], c)
    else
      var t := SplitOn(s[1..], c);
      [[s[0]] + t[0]] + t[1..]
  }

  lemma {:induction false} SplitOnNoSep(s: string, c: char)
    requires c !in s
    ensures SplitOn(s, c) == [s]
  {
    if |s| > 0 {
      SplitOnNoSep(s[1..], c);
      assert [s[0]] + s[1..] == s;
    }
  }

  lemma {:induction false} SplitOnCons(a: string, c: char, b: string)
    requires c !in a
    ensures SplitOn(a + [c] + b, c) == [a] + SplitOn(b, c)
  {
    if |a| == 0 {
      assert a + [c] + b == [c] + b;
      assert ([c] + b)[1..] == b;
    } else {
      assert (a + [c] + b)[1..] == a[1..] + [c] + b;
      SplitOnCons(a[1..], c, b);
      assert [a[0]] + a[1..] == a;
    }
  }

  /** Python's `''.join(s.split(c))`: every occurrence of `c` removed. */
  function Remove(s: string, c: char): (r: string)
    ensures c !in r && |r| <= |s|
  {
    if |s| == 0 then []
    else if s[0] == c then Remove(s[1..], c)
    else [s[0]] + Remove(s[1..], c)
  }

  /** Text without `c` is left as it is. */
  lemma {:induction false} RemoveNoSep(s: string, c: char)
    requires c !in s
    ensures Remove(s, c) == s
  {
    if |s| > 0 {
      assert c !in s[1..];
      RemoveNoSep(s[1..], c);
    }
  }

  /** Removal works piece by piece, so every other character keeps its order. */
  lemma {:induction false} RemoveAppend(a: string, b: string, c: char)
    ensures Remove(a + b, c) == Remove(a, c) + Remove(b, c)
  {
    if |a| > 0 {
      assert (a + b)[1..] == a[1..] + b;
      RemoveAppend(a[1..], b, c);
    } else {
      assert a + b == b;
    }
  }

  /** Removing `c` keeps exactly the characters other than `c`, each as often as before. */
  lemma {:induction false} RemoveCounts(s: string, c: char)
    ensures multiset(Remove(s, c))[c] == 0
    ensures forall x :: x != c ==> multiset(Remove(s, c))[x] == multiset(s)[x]
  {
    if |s| > 0 {
      RemoveCounts(s[1..], c);
      assert s == [s[0]] + s[1..];
      assert multiset(s) == multiset([s[0]]) + multiset(s[1..]);
    }
  }

  // ---------------------------------------------------------------------
  // rpartition(c)

  /** Index of the last occurrence of `c` in `s`, if any. */
  function LastIndex(s: string, c: char): (r: int)
    ensures -1 <= r < |s|
    ensures r >= 0 ==> s[r] == c
    ensures forall i :: r < i < |s| ==> s[i] != c
  {
    if |s| == 0 then -1
    else if s[|s| - 1] == c then |s| - 1
    else LastIndex(s[..|s| - 1], c)
  }

  /** `s.rpartition(c)[0]`: the text before the last `c`, or "" without one. */
  function BeforeLast(s: string, c: char): string
  {
    var k := LastIndex(s, c);
    if k < 0 then [] else s[..k]
  }

  /** `s.rpartition(c)[2]`: the text after the last `c`, or all of `s` without one. */
  function AfterLast(s: string, c: char): (r: string)
    ensures c !in r
  {
    var k := LastIndex(s, c);
    if k < 0 then s else s[k + 1..]
  }

  /** `rpartition` splits at the last separator and loses nothing but it. */
  lemma RPartitionParts(s: string, c: char)
    ensures c in s ==> s == BeforeLast(s, c) + [c] + AfterLast(s, c)
    ensures c !in s ==> BeforeLast(s, c) == [] && AfterLast(s, c) == s
  {
    var k := LastIndex(s, c);
    if c in s {
      var j :| 0 <= j < |s| && s[j] == c;
      assert k >= 0;
      assert s == s[..k] + [c] + s[k + 1..];
    } else {
      assert k < 0;
    }
  }

  /** Text after a last separator is what `rpartition` returns, whatever precedes it. */
  lemma {:induction false} AfterLastAppend(a: string, c: char, b: string)
    requires c !in b
    ensures AfterLast(a + [c] + b, c) == b
  {
    LastIndexAppend(a, c, b);
    assert (a + [c] + b)[|a| + 1..] == b;
  }

  lemma {:induction false} LastIndexAppend(a: string, c: char, b: string)
    requires c !in b
    ensures LastIndex(a + [c] + b, c) == |a|
  {
    var s := a + [c] + b;
    if |b| == 0 {
      assert s[|s| - 1] == c;
    } else {
      assert s[|s| - 1] == b[|b| - 1];
      assert s[..|s| - 1] == a + [c] + b[..|b| - 1];
      LastIndexAppend(a, c, b[..|b| - 1]);
    }
  }

  /** `s.partition(c)[2]`: the text after the first `c`, or "" without one. */
  function AfterFirst(s: string, c: char): (r: string)
    ensures c !in s ==> r == []
    ensures c in s ==> exists i :: 0 <= i < |s| && s[i] == c && c !in s[..i] && r == s[i + 1..]
  {
    if |s| == 0 then []
    else if s[0] == c then s[1..]
    else
      var r := AfterFirst(s[1..], c);
      assert c in s ==> c in s[1..];
      assert forall i :: 0 <= i < |s| - 1 ==> s[1..][..i] == s[1..i + 1] && s[1..][i + 1..] == s[i + 2..];
      r
  }

  // ---------------------------------------------------------------------
  // int()

  predicate IsDigit(c: char)
  {
    '0' <= c <= '9'
  }

  predicate AllDigits(s: string)
  {
    forall i :: 0 <= i < |s| ==> IsDigit(s[i])
  }

  /** The value of a string of decimal digits. */
  function DigitsValue(s: string): (n: nat)
    requires AllDigits(s)
  {
    if |s| == 0 then 0
    else DigitsValue(s[..|s| - 1]) * 10 + (s[|s| - 1] as int - '0' as int)
  }

  /** The value of two digits. */
  lemma TwoDigits(s: string)
    requires |s| == 2 && AllDigits(s)
    ensures DigitsValue(s) == (s[0] as int - '0' as int) * 10 + (s[1] as int - '0' as int)
  {
    var a := s[..1];
    assert a[..0] == [] && a[0] == s[0];
    assert DigitsValue(a) == DigitsValue(a[..0]) * 10 + (s[0] as int - '0' as int);
    assert DigitsValue(s) == DigitsValue(a) * 10 + (s[1] as int - '0' as int);
  }

  /** Python's `int(s)`: an optional sign, then one or more ASCII digits. */
  function ParseInt(s: string): (r: Option<int>)
    ensures r.Some? ==> s != []
    ensures r.Some? && s[0] != '-' ==> r.value >= 0
  {
    if |s| > 0 && (s[0] == '+' || s[0] == '-') then
      if |s| > 1 && AllDigits(s[1..]) then
        var v: int := DigitsValue(s[1..]);
        Some(if s[0] == '-' then -v else v)
      else None
    else if |s| > 0 && AllDigits(s) then Some(DigitsValue(s))
    else None
  }

  /** `int()` fails exactly on the empty string and on any character that is not a digit or a leading sign. */
  lemma ParseIntFails(s: string)
    ensures ParseInt(s) == None <==>
      (s == [] || (s[0] != '+' && s[0] != '-' && !AllDigits(s))
       || ((s[0] == '+' || s[0] == '-') && (|s| == 1 || !AllDigits(s[1..]))))
  {
  }

  /** A sign followed by digits reads as the signed value of the digits. */
  lemma ParseIntSigned(sign: char, digits: string)
    requires sign == '+' || sign == '-'
    requires digits != [] && AllDigits(digits)
    ensures ParseInt([sign] + digits) ==
      Some(if sign == '-' then -(DigitsValue(digits) as int) else DigitsValue(digits) as int)
  {
    assert ([sign] + digits)[1..] == digits;
  }

  /** Plain digits read as their value. */
  lemma ParseDigits(s: string)
    requires s != [] && AllDigits(s)
    ensures ParseInt(s) == Some(DigitsValue(s) as int)
  {
  }

  datatype Option<T> = None | Some(value: T)

  // ---------------------------------------------------------------------
  // decimal rendering (Python's `{n:0w}` for a non-negative n)

  function DigitChar(d: nat): char
    requires d < 10
  {
    ('0' as int + d) as char
  }

  /** The shortest decimal spelling of `n` ("0" for zero). */
  function Decimal(n: nat): (r: string)
    ensures r != [] && AllDigits(r)
    ensures DigitsValue(r) == n
  {
    if n < 10 then [DigitChar(n)]
    else
      var r := Decimal(n / 10) + [DigitChar(n % 10)];
      assert r[..|r| - 1] == Decimal(n / 10);
      r
  }

  lemma DecimalLength(n: nat, w: nat)
    requires w >= 1 && n < Pow10(w)
    ensures |Decimal(n)| <= w
  {
    if n >= 10 {
      DecimalLength(n / 10, w - 1);
    }
  }

  function Pow10(w: nat): (r: nat)
    ensures r >= 1
  {
    if w == 0 then 1 else 10 * Pow10(w - 1)
  }

  function Zeros(k: nat): (r: string)
    ensures |r| == k && AllDigits(r)
    ensures forall i :: 0 <= i < k ==> r[i] == '0'
  {
    if k == 0 then [] else Zeros(k - 1) + ['0']
  }

  lemma {:induction false} LeadingZeros(k: nat, s: string)
    requires AllDigits(s)
    ensures AllDigits(Zeros(k) + s)
    ensures DigitsValue(Zeros(k) + s) == DigitsValue(s)
    decreases |s|, k
  {
    if |s| == 0 {
      if k > 0 {
        assert Zeros(k) + s == Zeros(k - 1) + ['0'];
        assert (Zeros(k - 1) + ['0'])[..k - 1] == Zeros(k - 1);
        LeadingZeros(k - 1, []);
        assert Zeros(k - 1) + [] == Zeros(k - 1);
      }
    } else {
      var t := Zeros(k) + s;
      assert t[..|t| - 1] == Zeros(k) + s[..|s| - 1];
      LeadingZeros(k, s[..|s| - 1]);
    }
  }

  /** `{n:0w}`: `n` in decimal, left-padded with zeros to at least `w` characters. */
  function ZeroPad(n: nat, w: nat): (r: string)
    ensures AllDigits(r) && r != []
    ensures |r| >= w
    ensures ParseInt(r) == Some(n)
  {
    var d := Decimal(n);
    var z := if |d| < w then w - |d| else 0;
    LeadingZeros(z, d);
    Zeros(z) + d
  }

  lemma ZeroPadWidth(n: nat, w: nat)
    requires w >= 1 && n < Pow10(w)
    ensures |ZeroPad(n, w)| == w
  {
    DecimalLength(n, w);
  }
}
