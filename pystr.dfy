/** The handful of Python built-ins that the markdown builder leans on:
    `None`, `sep.join(parts)`, `s * n`, `str(n)` for a natural number,
    `str.isspace`, `str.split()` without arguments, and `s[lo:hi]` slicing.
    Each is written out with the semantics CPython gives it. */
module PyStr {

  /** Python's optional value: `None` or a present value. */
  datatype Option<T> = None | Some(value: T)

  // ---------------------------------------------------------------------------
  // sep.join(parts)
  // ---------------------------------------------------------------------------

  /** `sep.join(parts)`: the parts with one `sep` between neighbours. */
  function Join(parts: seq<string>, sep: string): string
  {
    if |parts| == 0 then ""
    else if |parts| == 1 then parts[0]
    else parts[0] + sep + Join(parts[1..], sep)
  }

  /** Appending a part to a non-empty list adds one separator and that part
      at the end, and leaves the text joined so far as a prefix. */
  lemma {:induction false} JoinSnoc(parts: seq<string>, x: string, sep: string)
    requires parts != []
    ensures Join(parts + [x], sep) == Join(parts, sep) + sep + x
    decreases |parts|
  {
    if |parts| == 1 {
      assert parts + [x] == [parts[0], x];
      assert (parts + [x])[1..] == [x];
    } else {
      assert (parts + [x])[1..] == parts[1..] + [x];
      JoinSnoc(parts[1..], x, sep);
    }
  }

  /** Every character of a joined string comes from a part or from the separator. */
  lemma {:induction false} JoinChars(parts: seq<string>, sep: string, c: char)
    requires c in Join(parts, sep)
    ensures c in sep || exists i :: 0 <= i < |parts| && c in parts[i]
    decreases |parts|
  {
    if |parts| > 1 {
      var rest := Join(parts[1..], sep);
      assert Join(parts, sep) == parts[0] + sep + rest;
      if c !in parts[0] && c !in sep {
        assert c in rest;
        JoinChars(parts[1..], sep, c);
        var i :| 0 <= i < |parts[1..]| && c in parts[1..][i];
        assert c in parts[i + 1];
      }
    }
  }

  // ---------------------------------------------------------------------------
  // s * n
  // ---------------------------------------------------------------------------

  /** `s * n`: `n` copies of `s` side by side; no copies at all when `n <= 0`. */
  function Repeat(s: string, n: int): (r: string)
    ensures |r| == if n <= 0 then 0 else n * |s|
    ensures forall i :: 0 <= i < |r| ==> r[i] in s
    decreases n
  {
    if n <= 0 then "" else s + Repeat(s, n - 1)
  }

  // ---------------------------------------------------------------------------
  // str(n) for a natural number, and its inverse
  // ---------------------------------------------------------------------------

  predicate IsDigit(c: char)
  {
    '0' as int <= c as int <= '9' as int
  }

  function DigitChar(d: nat): (c: char)
    requires d < 10
    ensures IsDigit(c) && c as int - '0' as int == d
  {
    ('0' as int + d) as char
  }

  /** `str(n)`: the decimal digits of `n`, most significant first. */
  function DecimalString(n: nat): (r: string)
    ensures |r| >= 1
    ensures forall i :: 0 <= i < |r| ==> IsDigit(r[i])
    ensures n > 0 ==> r[0] != '0'
    decreases n
  {
    if n < 10 then [DigitChar(n)] else DecimalString(n / 10) + [DigitChar(n % 10)]
  }

  /** `int(s)` for a string of decimal digits: the reference reading of a numeral. */
  function ParseDecimal(s: string): nat
    requires forall i :: 0 <= i < |s| ==> IsDigit(s[i])
    decreases |s|
  {
    if s == [] then 0
    else
      assert IsDigit(s[|s| - 1]);
      10 * ParseDecimal(s[..|s| - 1]) + (s[|s| - 1] as int - '0' as int)
  }

  /** Reading back the numeral that `str(n)` writes gives `n`. */
  lemma {:induction false} DecimalRoundTrip(n: nat)
    ensures ParseDecimal(DecimalString(n)) == n
    decreases n
  {
    var r := DecimalString(n);
    if n >= 10 {
      var front := DecimalString(n / 10);
      assert r[..|r| - 1] == front;
      DecimalRoundTrip(n / 10);
    }
  }

  // ---------------------------------------------------------------------------
  // str.isspace and str.split()
  // ---------------------------------------------------------------------------

  /** `c.isspace()`: the characters CPython treats as whitespace. */
  predicate IsSpace(c: char)
  {
    || ('\t' <= c <= '\r')
    || ('\U{1C}' <= c <= ' ')
    || c == '\U{85}' || c == '\U{A0}' || c == '\U{1680}'
    || ('\U{2000}' <= c <= '\U{200A}')
    || c == '\U{2028}' || c == '\U{2029}' || c == '\U{202F}' || c == '\U{205F}' || c == '\U{3000}'
  }

  predicate NoSpace(s: string)
  {
    forall i :: 0 <= i < |s| ==> !IsSpace(s[i])
  }

  /** The end of the run of non-whitespace characters that starts at `i`. */
  function WordEnd(s: string, i: nat): (n: nat)
    requires i <= |s|
    ensures i <= n <= |s|
    ensures forall k :: i <= k < n ==> !IsSpace(s[k])
    ensures n < |s| ==> IsSpace(s[n])
    decreases |s| - i
  {
    if i == |s| || IsSpace(s[i]) then i else WordEnd(s, i + 1)
  }

  /** `s.split()`: the maximal runs of non-whitespace characters, in order;
      leading, trailing and repeated whitespace produce no empty words. */
  function Words(s: string): seq<string>
    decreases |s|
  {
    if s == [] then []
    else if IsSpace(s[0]) then Words(s[1..])
    else
      var n := WordEnd(s, 1);
      [s[..n]] + Words(s[n..])
  }

  /** `s` with every whitespace character removed: the reference for what
      the words of `s` add up to. */
  function NonSpace(s: string): string
    decreases |s|
  {
    if s == [] then []
    else if IsSpace(s[0]) then NonSpace(s[1..])
    else [s[0]] + NonSpace(s[1..])
  }

  function Concat(parts: seq<string>): string
    decreases |parts|
  {
    if parts == [] then "" else parts[0] + Concat(parts[1..])
  }

  /** Every word is non-empty and holds no whitespace. */
  lemma {:induction false} WordsAreWords(s: string)
    ensures forall i :: 0 <= i < |Words(s)| ==> Words(s)[i] != [] && NoSpace(Words(s)[i])
    decreases |s|
  {
    if s != [] {
      if IsSpace(s[0]) {
        WordsAreWords(s[1..]);
      } else {
        var n := WordEnd(s, 1);
        WordsAreWords(s[n..]);
        var w := Words(s);
        assert w == [s[..n]] + Words(s[n..]);
        forall i | 0 <= i < |w|
          ensures w[i] != [] && NoSpace(w[i])
        {
          if i > 0 {
            assert w[i] == Words(s[n..])[i - 1];
          }
        }
      }
    }
  }

  lemma {:induction false} NonSpaceOfWord(w: string)
    requires NoSpace(w)
    ensures NonSpace(w) == w
    decreases |w|
  {
    if w != [] {
      NonSpaceOfWord(w[1..]);
    }
  }

  lemma {:induction false} NonSpaceAppend(a: string, b: string)
    ensures NonSpace(a + b) == NonSpace(a) + NonSpace(b)
    decreases |a|
  {
    if a != [] {
      assert (a + b)[1..] == a[1..] + b;
      NonSpaceAppend(a[1..], b);
    } else {
      assert a + b == b;
    }
  }

  /** Splitting loses only the whitespace: the words, put back together,
      are the non-whitespace characters of `s` in their original order. */
  lemma {:induction false} WordsConcat(s: string)
    ensures Concat(Words(s)) == NonSpace(s)
    decreases |s|
  {
    if s != [] {
      if IsSpace(s[0]) {
        WordsConcat(s[1..]);
      } else {
        var n := WordEnd(s, 1);
        WordsConcat(s[n..]);
        assert Words(s)[1..] == Words(s[n..]);
        assert s == s[..n] + s[n..];
        NonSpaceAppend(s[..n], s[n..]);
        NonSpaceOfWord(s[..n]);
      }
    }
  }

  /** A single run of non-whitespace splits into exactly itself. */
  lemma SingleWord(s: string)
    requires s != [] && NoSpace(s)
    ensures Words(s) == [s]
  {
    var n := WordEnd(s, 1);
    assert n == |s|;
    assert s[..n] == s && s[n..] == [];
    assert Words(s) == [s[..n]] + Words(s[n..]);
  }

  /** A run that reaches a whitespace character ends there, whatever follows. */
  lemma {:induction false} WordEndBeforeSpace(a: string, t: string, i: nat)
    requires i <= |a| && t != [] && IsSpace(t[0])
    ensures WordEnd(a + t, i) == WordEnd(a, i)
    decreases |a| - i
  {
    if i < |a| {
      assert (a + t)[i] == a[i];
      if !IsSpace(a[i]) {
        WordEndBeforeSpace(a, t, i + 1);
      }
    } else {
      assert (a + t)[i] == t[0];
    }
  }

  /** A whitespace character separates words: splitting around it splits
      each side on its own, and no word spans it. */
  lemma {:induction false} WordsSplit(a: string, c: char, b: string)
    requires IsSpace(c)
    ensures Words(a + [c] + b) == Words(a) + Words(b)
    decreases |a|
  {
    var s := a + [c] + b;
    if a == [] {
      assert s[0] == c && s[1..] == b;
    } else if IsSpace(a[0]) {
      assert s[0] == a[0];
      assert s[1..] == a[1..] + [c] + b;
      WordsSplit(a[1..], c, b);
    } else {
      assert s[0] == a[0];
      assert s == a + ([c] + b);
      WordEndBeforeSpace(a, [c] + b, 1);
      var m := WordEnd(a, 1);
      assert s[..m] == a[..m];
      assert s[m..] == a[m..] + [c] + b;
      WordsSplit(a[m..], c, b);
    }
  }

  /** Leading whitespace yields no words. */
  lemma {:induction false} WordsSkipSpace(w: string, b: string)
    requires forall i :: 0 <= i < |w| ==> IsSpace(w[i])
    ensures Words(w + b) == Words(b)
    decreases |w|
  {
    if w != [] {
      assert (w + b)[0] == w[0];
      assert (w + b)[1..] == w[1..] + b;
      WordsSkipSpace(w[1..], b);
    } else {
      assert w + b == b;
    }
  }

  /** A whole run of whitespace separates words exactly as one character does. */
  lemma WordsAround(a: string, w: string, b: string)
    requires w != [] && forall i :: 0 <= i < |w| ==> IsSpace(w[i])
    ensures Words(a + w + b) == Words(a) + Words(b)
  {
    assert a + w + b == a + [w[0]] + (w[1..] + b);
    WordsSplit(a, w[0], w[1..] + b);
    WordsSkipSpace(w[1..], b);
  }

  /** Joining two non-empty lists puts one separator between the two joins. */
  lemma {:induction false} JoinAppend(p: seq<string>, q: seq<string>, sep: string)
    requires p != [] && q != []
    ensures Join(p + q, sep) == Join(p, sep) + sep + Join(q, sep)
    decreases |p|
  {
    assert (p + q)[0] == p[0];
    assert (p + q)[1..] == p[1..] + q;
    if |p| > 1 {
      JoinAppend(p[1..], q, sep);
    }
  }

  // ---------------------------------------------------------------------------
  // s.replace(c, "")
  // ---------------------------------------------------------------------------

  /** `s.replace(c, "")`: `s` with every occurrence of `c` taken out. */
  function Remove(s: string, c: char): (r: string)
    ensures c !in r
    decreases |s|
  {
    if s == [] then "" else (if s[0] == c then "" else [s[0]]) + Remove(s[1..], c)
  }

  lemma {:induction false} RemoveAppend(a: string, b: string, c: char)
    ensures Remove(a + b, c) == Remove(a, c) + Remove(b, c)
    decreases |a|
  {
    if a != [] {
      assert (a + b)[0] == a[0];
      assert (a + b)[1..] == a[1..] + b;
      RemoveAppend(a[1..], b, c);
    } else {
      assert a + b == b;
    }
  }

  lemma {:induction false} RemoveAbsent(s: string, c: char)
    requires c !in s
    ensures Remove(s, c) == s
    decreases |s|
  {
    if s != [] {
      RemoveAbsent(s[1..], c);
    }
  }

  /** Taking the separator back out of a join gives the parts side by side,
      when no part holds the separator's character. */
  lemma {:induction false} RemoveJoinSep(parts: seq<string>, c: char)
    requires forall k :: 0 <= k < |parts| ==> c !in parts[k]
    ensures Remove(Join(parts, [c]), c) == Concat(parts)
    decreases |parts|
  {
    if |parts| == 1 {
      RemoveAbsent(parts[0], c);
      assert Concat(parts) == parts[0] + Concat(parts[1..]);
      assert parts[1..] == [];
    } else if |parts| > 1 {
      RemoveJoinSep(parts[1..], c);
      RemoveAppend(parts[0] + [c], Join(parts[1..], [c]), c);
      RemoveAppend(parts[0], [c], c);
      RemoveAbsent(parts[0], c);
      assert Remove([c], c) == "" by {
        assert [c][1..] == [];
      }
    }
  }

  /** A character of any word is a character of the string. */
  lemma {:induction false} WordsChars(s: string, k: nat, c: char)
    requires k < |Words(s)| && c in Words(s)[k]
    ensures c in s
    decreases |s|
  {
    if IsSpace(s[0]) {
      WordsChars(s[1..], k, c);
    } else {
      var n := WordEnd(s, 1);
      if k > 0 {
        assert Words(s)[k] == Words(s[n..])[k - 1];
        WordsChars(s[n..], k - 1, c);
      } else {
        assert c in s[..n];
      }
    }
  }

  // ---------------------------------------------------------------------------
  // s[lo:hi]
  // ---------------------------------------------------------------------------

  /** The position a slice bound denotes in a sequence of length `n`:
      `None` is the default, a negative bound counts from the end, and the
      result is clamped into `[0, n]`. */
  function SliceBound(b: Option<int>, n: nat, default: nat): (k: nat)
    requires default <= n
    ensures k <= n
  {
    match b
    case None => default
    case Some(i) =>
      if i < 0 then (if i + n < 0 then 0 else i + n)
      else if i > n then n
      else i
  }

  /** `s[lo:hi]` with Python's rules for omitted, negative and
      out-of-range bounds; an empty slice when the bounds cross. */
  function Slice<T>(s: seq<T>, lo: Option<int>, hi: Option<int>): (r: seq<T>)
    ensures |r| <= |s|
    ensures lo == None && hi == None ==> r == s
  {
    var a := SliceBound(lo, |s|, 0);
    var b := SliceBound(hi, |s|, |s|);
    if a < b then s[a..b] else []
  }
}
