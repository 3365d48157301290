/** Optional values: the model's rendering of JavaScript's `null`, `undefined` and `NaN` results. */
module Wrappers {
  datatype Option<+T> = None | Some(value: T) {
    function GetOr(default: T): T
    {
      match this
      case Some(v) => v
      case None => default
    }
  }
}

/** The string operations the routes use: `split` on one character, decimal digits, zero padding. */
module Text {

  /** JavaScript's `s.split(sep)` for a one-character separator. */
  function Split(s: string, sep: char): (r: seq<string>)
    ensures |r| >= 1
    decreases |s|
  {
    if |s| == 0 then [""]
    else if s[0] == sep then [""] + Split(s[1..], sep)
    else
      var rest := Split(s[1..], sep);
      [[s[0]] + rest[0]] + rest[1..]
  }

  /** JavaScript's `pieces.join(sep)`. */
  function Join(pieces: seq<string>, sep: char): string
    requires |pieces| >= 1
    decreases |pieces|
  {
    if |pieces| == 1 then pieces[0] else pieces[0] + [sep] + Join(pieces[1..], sep)
  }

  /** Splitting and joining again gives back the text. */
  lemma {:induction false} JoinSplit(s: string, sep: char)
    ensures Join(Split(s, sep), sep) == s
    decreases |s|
  {
    if |s| == 0 {
    } else if s[0] == sep {
      JoinSplit(s[1..], sep);
      assert s == [sep] + s[1..];
    } else {
      var rest := Split(s[1..], sep);
      JoinSplit(s[1..], sep);
      if |rest| == 1 {
        assert s == [s[0]] + s[1..];
      } else {
        assert Join(Split(s, sep), sep) == [s[0]] + rest[0] + [sep] + Join(rest[1..], sep);
        assert s == [s[0]] + s[1..];
      }
    }
  }

  /** No piece of a split contains the separator. */
  lemma {:induction false} SplitPiecesFree(s: string, sep: char)
    ensures forall i :: 0 <= i < |Split(s, sep)| ==> sep !in Split(s, sep)[i]
    decreases |s|
  {
    if |s| > 0 {
      SplitPiecesFree(s[1..], sep);
    }
  }

  /** A text without the separator splits into itself alone. */
  lemma {:induction false} SplitWithout(a: string, sep: char)
    requires sep !in a
    ensures Split(a, sep) == [a]
    decreases |a|
  {
    if |a| > 0 {
      SplitWithout(a[1..], sep);
      assert a == [a[0]] + a[1..];
    }
  }

  /** The first piece ends at the first separator. */
  lemma {:induction false} SplitAt(a: string, sep: char, b: string)
    requires sep !in a
    ensures Split(a + [sep] + b, sep) == [a] + Split(b, sep)
    decreases |a|
  {
    if |a| == 0 {
      assert a + [sep] + b == [sep] + b;
    } else {
      assert (a + [sep] + b)[1..] == a[1..] + [sep] + b;
      SplitAt(a[1..], sep, b);
      assert [a[0]] + a[1..] == a;
    }
  }

  /** The value of a character as a digit, up to radix 36, as `parseInt` reads digits; 36 for any other character. */
  function CharValue(c: char): nat
  {
    if '0' <= c <= '9' then c as int - '0' as int
    else if 'a' <= c <= 'z' then c as int - 'a' as int + 10
    else if 'A' <= c <= 'Z' then c as int - 'A' as int + 10
    else 36
  }

  predicate IsDigit(c: char)
  {
    '0' <= c <= '9'
  }

  predicate AllDigits(s: string)
  {
    forall i :: 0 <= i < |s| ==> IsDigit(s[i])
  }

  predicate AllRadixDigits(s: string, radix: nat)
  {
    forall i :: 0 <= i < |s| ==> CharValue(s[i]) < radix
  }

  function DigitChar(d: nat): (c: char)
    requires d < 10
    ensures IsDigit(c) && CharValue(c) == d
  {
    ('0' as int + d) as char
  }

  /** The value of a run of digits in the given radix, most significant first. */
  function RadixValue(s: string, radix: nat): nat
    requires AllRadixDigits(s, radix)
    decreases |s|
  {
    if |s| == 0 then 0
    else RadixValue(s[..|s| - 1], radix) * radix + CharValue(s[|s| - 1])
  }

  function DecimalValue(s: string): nat
    requires AllDigits(s)
  {
    RadixValue(s, 10)
  }

  /** The length of the longest prefix of `s` made of digits of the radix. */
  function RadixPrefixLen(s: string, radix: nat): (n: nat)
    ensures n <= |s|
    decreases |s|
  {
    if |s| == 0 || CharValue(s[0]) >= radix then 0 else RadixPrefixLen(s[1..], radix) + 1
  }

  /** The prefix is made of digits, and the character after it is not one. */
  lemma {:induction false} RadixPrefixLenSpec(s: string, radix: nat)
    ensures AllRadixDigits(s[..RadixPrefixLen(s, radix)], radix)
    ensures RadixPrefixLen(s, radix) < |s| ==> CharValue(s[RadixPrefixLen(s, radix)]) >= radix
    decreases |s|
  {
    if |s| > 0 && CharValue(s[0]) < radix {
      var k := RadixPrefixLen(s[1..], radix);
      RadixPrefixLenSpec(s[1..], radix);
      assert s[..k + 1] == [s[0]] + s[1..][..k];
    }
  }

  /** A digit run followed by something that is not a digit is read up to its end. */
  lemma {:induction false} RadixPrefixLenOf(d: string, rest: string, radix: nat)
    requires AllRadixDigits(d, radix)
    requires rest == [] || CharValue(rest[0]) >= radix
    ensures RadixPrefixLen(d + rest, radix) == |d|
    decreases |d|
  {
    if |d| > 0 {
      assert (d + rest)[1..] == d[1..] + rest;
      RadixPrefixLenOf(d[1..], rest, radix);
    }
  }

  /** `String(n).padStart(2, '0')` for a value below 100, as `toISOString` prints hours, minutes, seconds. */
  function Pad2(n: nat): (r: string)
    requires n < 100
    ensures |r| == 2 && AllDigits(r)
  {
    [DigitChar(n / 10), DigitChar(n % 10)]
  }

  /** `String(n).padStart(3, '0')` for a value below 1000, as `toISOString` prints milliseconds. */
  function Pad3(n: nat): (r: string)
    requires n < 1000
    ensures |r| == 3 && AllDigits(r)
  {
    [DigitChar(n / 100), DigitChar(n / 10 % 10), DigitChar(n % 10)]
  }

  lemma Pad2Value(n: nat)
    requires n < 100
    ensures DecimalValue(Pad2(n)) == n
  {
    var p := Pad2(n);
    assert p[..1][..0] == [];
    assert RadixValue(p[..1], 10) == CharValue(p[0]) == n / 10;
    assert p[..|p| - 1] == p[..1];
  }

  /** `String(n)`: the shortest decimal text of a natural number. */
  function DecimalText(n: nat): (r: string)
    ensures |r| >= 1 && AllDigits(r)
    ensures n > 0 ==> r[0] != '0'
    ensures n == 0 ==> r == "0"
    decreases n
  {
    if n < 10 then [DigitChar(n)] else DecimalText(n / 10) + [DigitChar(n % 10)]
  }

  lemma {:induction false} DecimalTextValue(n: nat)
    ensures DecimalValue(DecimalText(n)) == n
    decreases n
  {
    if n >= 10 {
      DecimalTextValue(n / 10);
      var t := DecimalText(n);
      assert t[..|t| - 1] == DecimalText(n / 10);
      assert RadixValue(t, 10) == RadixValue(DecimalText(n / 10), 10) * 10 + n % 10;
    }
  }
  /** The characters JavaScript counts as white space: `\s` in a regular expression, and what `parseInt` skips. */
  predicate IsJsWhitespace(c: char)
  {
    || c == ' ' || c == '\t' || c == '\n' || c == '\r'
    || c as int == 0x0B || c as int == 0x0C || c as int == 0xA0 || c as int == 0x1680
    || (0x2000 <= c as int <= 0x200A)
    || c as int == 0x2028 || c as int == 0x2029 || c as int == 0x202F
    || c as int == 0x205F || c as int == 0x3000 || c as int == 0xFEFF
  }

  /** `s.trimStart()`: drops the leading white space. */
  function TrimStart(s: string): (r: string)
    decreases |s|
  {
    if |s| > 0 && IsJsWhitespace(s[0]) then TrimStart(s[1..]) else s
  }

  /** `s.trimEnd()`: drops the trailing white space. */
  function TrimEnd(s: string): (r: string)
    decreases |s|
  {
    if |s| > 0 && IsJsWhitespace(s[|s| - 1]) then TrimEnd(s[..|s| - 1]) else s
  }

  /** Trailing white space is all `trimEnd` removes. */
  lemma {:induction false} TrimEndPadded(a: string, w: string)
    requires a == [] || !IsJsWhitespace(a[|a| - 1])
    requires forall i :: 0 <= i < |w| ==> IsJsWhitespace(w[i])
    ensures TrimEnd(a + w) == a
    decreases |w|
  {
    if |w| > 0 {
      assert (a + w)[..|a + w| - 1] == a + w[..|w| - 1];
      TrimEndPadded(a, w[..|w| - 1]);
    } else {
      assert a + w == a;
    }
  }

  /** Leading white space is all `trimStart` removes. */
  lemma {:induction false} TrimStartPadded(w: string, a: string)
    requires a == [] || !IsJsWhitespace(a[0])
    requires forall i :: 0 <= i < |w| ==> IsJsWhitespace(w[i])
    ensures TrimStart(w + a) == a
    decreases |w|
  {
    if |w| > 0 {
      assert (w + a)[1..] == w[1..] + a;
      TrimStartPadded(w[1..], a);
    } else {
      assert w + a == a;
    }
  }

  /** Trimming keeps every character that is not white space. */
  lemma {:induction false} TrimKeeps(s: string, c: char)
    requires c in s && !IsJsWhitespace(c)
    ensures c in TrimEnd(s) && c in TrimStart(s)
    decreases |s|
  {
    if |s| > 0 && IsJsWhitespace(s[|s| - 1]) {
      assert c in s[..|s| - 1] by {
        var i :| 0 <= i < |s| && s[i] == c;
        assert i < |s| - 1;
        assert s[..|s| - 1][i] == c;
      }
      TrimKeeps(s[..|s| - 1], c);
    }
    if |s| > 0 && IsJsWhitespace(s[0]) {
      assert c in s[1..] by {
        var i :| 0 <= i < |s| && s[i] == c;
        assert 0 < i;
        assert s[1..][i - 1] == c;
      }
      TrimKeeps(s[1..], c);
    }
  }

  /** What `trimStart` leaves is a suffix that starts with no white space; all it drops is white space. */
  lemma {:induction false} TrimStartSpec(s: string)
    ensures var r := TrimStart(s);
      && |r| <= |s| && r == s[|s| - |r|..]
      && (r != [] ==> !IsJsWhitespace(r[0]))
      && forall i :: 0 <= i < |s| - |r| ==> IsJsWhitespace(s[i])
    decreases |s|
  {
    if |s| > 0 && IsJsWhitespace(s[0]) {
      TrimStartSpec(s[1..]);
    }
  }
}

/** Order-preserving filtering and first-match search, as `Array.prototype.filter` and `find` do them. */
module Seqs {
  import opened Wrappers

  function Filter<T>(xs: seq<T>, keep: T -> bool): (r: seq<T>)
    ensures |r| <= |xs|
    decreases |xs|
  {
    if |xs| == 0 then []
    else Filter(xs[..|xs| - 1], keep) + (if keep(xs[|xs| - 1]) then [xs[|xs| - 1]] else [])
  }

  /** `xs` is `ys` with some elements left out, the rest in the same order (matched from the end). */
  predicate IsSubsequence<T(==)>(xs: seq<T>, ys: seq<T>)
    decreases |ys|
  {
    if |xs| == 0 then true
    else if |ys| == 0 then false
    else if xs[|xs| - 1] == ys[|ys| - 1] then IsSubsequence(xs[..|xs| - 1], ys[..|ys| - 1])
    else IsSubsequence(xs, ys[..|ys| - 1])
  }

  /** What `filter` keeps is an order-preserving subsequence of what it was given. */
  lemma {:induction false} FilterSubsequence<T>(xs: seq<T>, keep: T -> bool)
    ensures IsSubsequence(Filter(xs, keep), xs)
    decreases |xs|
  {
    if |xs| > 0 {
      var ps, y := xs[..|xs| - 1], xs[|xs| - 1];
      FilterSubsequence(ps, keep);
      var f := Filter(ps, keep);
      if keep(y) {
        assert Filter(xs, keep) == f + [y];
        assert (f + [y])[..|f|] == f;
      } else {
        assert Filter(xs, keep) == f;
        if |f| > 0 {
          FilterKeeps(ps, keep);
          assert keep(f[|f| - 1]);
        }
      }
    }
  }

  /** Every element `filter` keeps satisfies the predicate. */
  lemma {:induction false} FilterKeeps<T>(xs: seq<T>, keep: T -> bool)
    ensures forall i :: 0 <= i < |Filter(xs, keep)| ==> keep(Filter(xs, keep)[i])
    decreases |xs|
  {
    if |xs| > 0 {
      FilterKeeps(xs[..|xs| - 1], keep);
    }
  }

  /** `filter` keeps exactly the elements of its input that satisfy the predicate. */
  lemma {:induction false} FilterMembers<T>(xs: seq<T>, keep: T -> bool)
    ensures forall x :: x in xs && keep(x) ==> x in Filter(xs, keep)
    ensures forall x :: x in Filter(xs, keep) ==> x in xs
    decreases |xs|
  {
    if |xs| > 0 {
      var ps, y := xs[..|xs| - 1], xs[|xs| - 1];
      FilterMembers(ps, keep);
      assert xs == ps + [y];
      assert forall x :: x in xs ==> x == y || x in ps;
    }
  }

  /** What `filter` keeps is an order-preserving subsequence, holds the predicate, and misses nothing that holds it. */
  lemma FilterSpec<T>(xs: seq<T>, keep: T -> bool)
    ensures IsSubsequence(Filter(xs, keep), xs)
    ensures forall i :: 0 <= i < |Filter(xs, keep)| ==> keep(Filter(xs, keep)[i])
    ensures forall x :: x in xs && keep(x) ==> x in Filter(xs, keep)
    ensures forall x :: x in Filter(xs, keep) ==> x in xs
  {
    FilterSubsequence(xs, keep);
    FilterKeeps(xs, keep);
    FilterMembers(xs, keep);
  }

  /** Filtering with a predicate that holds of every element changes nothing. */
  lemma {:induction false} FilterAll<T>(xs: seq<T>, keep: T -> bool)
    requires forall i :: 0 <= i < |xs| ==> keep(xs[i])
    ensures Filter(xs, keep) == xs
    decreases |xs|
  {
    if |xs| > 0 {
      FilterAll(xs[..|xs| - 1], keep);
      assert xs[..|xs| - 1] + [xs[|xs| - 1]] == xs;
    }
  }

  /** `findIndex`: the position of the first element that satisfies `p`. */
  function FirstIndex<T>(xs: seq<T>, p: T -> bool): (r: Option<nat>)
    ensures r.Some? ==> r.value < |xs| && p(xs[r.value]) && forall j :: 0 <= j < r.value ==> !p(xs[j])
    ensures r.None? <==> forall j :: 0 <= j < |xs| ==> !p(xs[j])
    decreases |xs|
  {
    if |xs| == 0 then None
    else if p(xs[0]) then Some(0)
    else
      match FirstIndex(xs[1..], p)
      case None => None
      case Some(i) => Some(i + 1)
  }

  /** `find`: the first element that satisfies `p`. */
  function First<T>(xs: seq<T>, p: T -> bool): (r: Option<T>)
    ensures r.Some? ==> exists i :: 0 <= i < |xs| && xs[i] == r.value && p(xs[i]) && forall j :: 0 <= j < i ==> !p(xs[j])
    ensures r.None? <==> forall j :: 0 <= j < |xs| ==> !p(xs[j])
  {
    match FirstIndex(xs, p)
    case None => None
    case Some(i) => Some(xs[i])
  }

  /** The first index that satisfies `p`, with none before it, is what `findIndex` returns. */
  lemma FirstIndexUnique<T>(xs: seq<T>, p: T -> bool, i: nat)
    requires i < |xs| && p(xs[i]) && forall j :: 0 <= j < i ==> !p(xs[j])
    ensures FirstIndex(xs, p) == Some(i)
  {
  }

  /** Appending an element that fails the predicate does not change what `find` returns. */
  lemma FirstSnocMiss<T>(xs: seq<T>, x: T, p: T -> bool)
    requires !p(x)
    ensures First(xs + [x], p) == First(xs, p)
  {
    var ys := xs + [x];
    match FirstIndex(xs, p)
    case None =>
      assert forall j :: 0 <= j < |ys| ==> !p(ys[j]) by {
        assert forall j :: 0 <= j < |xs| ==> ys[j] == xs[j];
      }
    case Some(i) =>
      assert forall j :: 0 <= j < |xs| ==> ys[j] == xs[j];
      FirstIndexUnique(ys, p, i);
  }

  /** Appending the only element that satisfies the predicate makes it what `find` returns. */
  lemma FirstSnocHit<T>(xs: seq<T>, x: T, p: T -> bool)
    requires First(xs, p).None? && p(x)
    ensures First(xs + [x], p) == Some(x)
  {
    var ys := xs + [x];
    assert forall j :: 0 <= j < |xs| ==> ys[j] == xs[j];
    FirstIndexUnique(ys, p, |xs|);
  }
}
