/** The few Python `str` primitives the scraper relies on, over `seq<char>`. */
module Text {
  import opened Wrappers
  import opened Seqs

  /** Whitespace as Python's `str.strip()` sees it, restricted to the Latin-1 range. */
  predicate IsSpace(c: char) {
    c == ' ' || '\t' <= c <= '\r' || '\U{1C}' <= c <= '\U{1F}' || c == '\U{85}' || c == '\U{A0}'
  }

  /** A string is blank when every one of its characters is whitespace. */
  ghost predicate IsBlank(s: string) {
    forall i :: 0 <= i < |s| ==> IsSpace(s[i])
  }

  /** Drops leading whitespace; the result is a suffix of `s`. */
  function TrimLeft(s: string): (r: string)
    ensures |r| <= |s| && r == s[|s| - |r|..]
    ensures forall i :: 0 <= i < |s| - |r| ==> IsSpace(s[i])
    ensures |r| > 0 ==> !IsSpace(r[0])
  {
    if |s| > 0 && IsSpace(s[0]) then TrimLeft(s[1..]) else s
  }

  /** Drops trailing whitespace; the result is a prefix of `s`. */
  function TrimRight(s: string): (r: string)
    ensures |r| <= |s| && r == s[..|r|]
    ensures forall i :: |r| <= i < |s| ==> IsSpace(s[i])
    ensures |r| > 0 ==> !IsSpace(r[|r| - 1])
  {
    if |s| > 0 && IsSpace(s[|s| - 1]) then TrimRight(s[..|s| - 1]) else s
  }

  /** `r` sits at position `i` of `s` with nothing but whitespace around it. */
  ghost predicate Inner(s: string, r: string, i: int) {
    && 0 <= i <= |s| - |r|
    && r == s[i..i + |r|]
    && IsBlank(s[..i])
    && IsBlank(s[i + |r|..])
  }

  /** Python's `s.strip()`: removes whitespace at both ends and nothing inside. */
  function Strip(s: string): (r: string)
    ensures exists i :: Inner(s, r, i)
    ensures |r| > 0 ==> !IsSpace(r[0]) && !IsSpace(r[|r| - 1])
    ensures r == [] <==> IsBlank(s)
    ensures |s| > 0 && !IsSpace(s[0]) && !IsSpace(s[|s| - 1]) ==> r == s
  {
    var l := TrimLeft(s);
    var r := TrimRight(l);
    TrimmedInner(s);
    assert |r| > 0 ==> r[|r| - 1] == l[|r| - 1] && r[0] == l[0];
    r
  }

  lemma TrimmedInner(s: string)
    ensures Inner(s, TrimRight(TrimLeft(s)), |s| - |TrimLeft(s)|)
  {
    var l := TrimLeft(s);
    LeftBlank(s);
    RightBlank(l);
    InnerOfSuffixPrefix(s, l, TrimRight(l));
  }

  /** A prefix `r` of a suffix `l` of `s`, with whitespace cut on both sides, sits inside `s`. */
  lemma InnerOfSuffixPrefix(s: string, l: string, r: string)
    requires |l| <= |s| && l == s[|s| - |l|..] && IsBlank(s[..|s| - |l|])
    requires |r| <= |l| && r == l[..|r|] && IsBlank(l[|r|..])
    ensures Inner(s, r, |s| - |l|)
  {
    var i := |s| - |l|;
    assert r == s[i..i + |r|];
    assert s[i + |r|..] == l[|r|..];
  }

  lemma LeftBlank(s: string)
    ensures IsBlank(s[..|s| - |TrimLeft(s)|])
  {
    var p := s[..|s| - |TrimLeft(s)|];
    forall k | 0 <= k < |p| ensures IsSpace(p[k]) {
      assert p[k] == s[k];
    }
  }

  lemma RightBlank(l: string)
    ensures IsBlank(l[|TrimRight(l)|..])
  {
    var n := |TrimRight(l)|;
    var p := l[n..];
    forall k | 0 <= k < |p| ensures IsSpace(p[k]) {
      assert p[k] == l[n + k];
    }
  }

  /** Stripping is determined by its contract: a piece of `s` that does not
      start or end with whitespace and has only whitespace around it is the
      stripped text. */
  lemma StripUnique(s: string, r: string, i: int)
    requires Inner(s, r, i)
    requires |r| > 0 ==> !IsSpace(r[0]) && !IsSpace(r[|r| - 1])
    ensures Strip(s) == r
  {
    var q := Strip(s);
    var j :| Inner(s, q, j);
    if |r| == 0 {
      BlankAround(s, i);
    } else {
      NotBlank(s, r, i);
      SameInner(s, r, q, i, j);
    }
  }

  lemma NotBlank(s: string, r: string, i: int)
    requires Inner(s, r, i) && |r| > 0 && !IsSpace(r[0])
    ensures !IsBlank(s)
  {
    assert s[i] == r[0];
  }

  /** Two non-empty pieces of `s` with non-space ends and only whitespace around them coincide. */
  lemma SameInner(s: string, r: string, q: string, i: int, j: int)
    requires Inner(s, r, i) && Inner(s, q, j) && |r| > 0 && |q| > 0
    requires !IsSpace(r[0]) && !IsSpace(r[|r| - 1]) && !IsSpace(q[0]) && !IsSpace(q[|q| - 1])
    ensures r == q
  {
    assert s[i] == r[0] && s[j] == q[0];
    FirstNonSpace(s, i, j);
    assert s[i + |r| - 1] == r[|r| - 1] && s[j + |q| - 1] == q[|q| - 1];
    LastNonSpace(s, i + |r|, j + |q|);
  }

  lemma BlankAround(s: string, i: int)
    requires 0 <= i <= |s| && IsBlank(s[..i]) && IsBlank(s[i..])
    ensures IsBlank(s)
  {
    forall k | 0 <= k < |s| ensures IsSpace(s[k]) {
      if k < i {
        assert s[..i][k] == s[k];
      } else {
        assert s[i..][k - i] == s[k];
      }
    }
  }

  lemma FirstNonSpace(s: string, i: int, j: int)
    requires 0 <= i < |s| && 0 <= j < |s|
    requires IsBlank(s[..i]) && IsBlank(s[..j]) && !IsSpace(s[i]) && !IsSpace(s[j])
    ensures i == j
  {
  }

  lemma LastNonSpace(s: string, a: int, b: int)
    requires 0 < a <= |s| && 0 < b <= |s|
    requires IsBlank(s[a..]) && IsBlank(s[b..]) && !IsSpace(s[a - 1]) && !IsSpace(s[b - 1])
    ensures a == b
  {
  }

  /** `c` does not occur in `s`. */
  ghost predicate Free(s: string, c: char) {
    forall i :: 0 <= i < |s| ==> s[i] != c
  }

  /** Python's `s.split(sep)` for a one-character separator: every occurrence of
      `sep` ends one token, so adjacent separators give empty tokens and `""`
      gives `[""]`. The first token is the text before the first separator. */
  function Split(s: string, sep: char): (r: seq<string>)
    ensures |r| >= 1
    ensures forall k :: 0 <= k < |r| ==> Free(r[k], sep)
    ensures |r[0]| <= |s| && r[0] == s[..|r[0]|]
    ensures |r[0]| < |s| ==> s[|r[0]|] == sep
    ensures |r[0]| == |s| ==> |r| == 1
  {
    if |s| == 0 then [""]
    else
      var rest := Split(s[1..], sep);
      if s[0] == sep then [""] + rest
      else [[s[0]] + rest[0]] + rest[1..]
  }

  /** Python's `sep.join(parts)`, the inverse of `Split`. */
  function Join(parts: seq<string>, sep: char): string
    requires |parts| >= 1
  {
    if |parts| == 1 then parts[0] else parts[0] + [sep] + Join(parts[1..], sep)
  }

  /** Joining the tokens of a split gives the original string back. */
  lemma {:induction false} JoinSplit(s: string, sep: char)
    ensures Join(Split(s, sep), sep) == s
  {
    if |s| > 0 {
      var rest := Split(s[1..], sep);
      JoinSplit(s[1..], sep);
      if s[0] == sep {
        assert Split(s, sep) == [""] + rest;
        assert ([""] + rest)[1..] == rest;
        assert s == [sep] + s[1..];
      } else {
        assert Split(s, sep) == [[s[0]] + rest[0]] + rest[1..];
        JoinCons(s[0], rest, sep);
        assert s == [s[0]] + s[1..];
      }
    }
  }

  /** Prefixing the first token with a character prefixes the join with it. */
  lemma JoinCons(c: char, parts: seq<string>, sep: char)
    requires |parts| >= 1
    ensures Join([[c] + parts[0]] + parts[1..], sep) == [c] + Join(parts, sep)
  {
    var r := [[c] + parts[0]] + parts[1..];
    assert r[0] == [c] + parts[0] && r[1..] == parts[1..];
  }

  /** A separator-free token followed by a separator splits off as one token. */
  lemma {:induction false} SplitToken(a: string, t: string, sep: char)
    requires Free(a, sep)
    ensures Split(a + [sep] + t, sep) == [a] + Split(t, sep)
  {
    if |a| > 0 {
      SplitToken(a[1..], t, sep);
      assert (a + [sep] + t)[1..] == a[1..] + [sep] + t;
      assert [a[0]] + a[1..] == a;
    } else {
      assert a + [sep] + t == [sep] + t;
      assert ([sep] + t)[1..] == t;
    }
  }

  /** A separator-free string is a single token. */
  lemma {:induction false} SplitFree(a: string, sep: char)
    requires Free(a, sep)
    ensures Split(a, sep) == [a]
  {
    if |a| > 0 {
      SplitFree(a[1..], sep);
      assert [a[0]] + a[1..] == a;
    }
  }

  /** Splitting a join of separator-free tokens gives the tokens back. */
  lemma {:induction false} SplitJoin(parts: seq<string>, sep: char)
    requires |parts| >= 1
    requires forall k :: 0 <= k < |parts| ==> Free(parts[k], sep)
    ensures Split(Join(parts, sep), sep) == parts
  {
    if |parts| == 1 {
      SplitFree(parts[0], sep);
    } else {
      SplitJoin(parts[1..], sep);
      SplitToken(parts[0], Join(parts[1..], sep), sep);
      assert parts == [parts[0]] + parts[1..];
    }
  }

  /** The test "is not `c`", as a filter predicate. */
  function Other(c: char): char -> bool {
    x => x != c
  }

  /** Python's `s.replace(c, "")` for a single character `c`: the other
      characters, in their order. */
  function RemoveChar(s: string, c: char): (r: string)
    ensures r == Filter(Other(c), s)
    ensures Free(r, c)
    ensures |r| <= |s|
    ensures Free(s, c) ==> r == s
  {
    if |s| == 0 then [] else (if s[0] == c then [] else [s[0]]) + RemoveChar(s[1..], c)
  }

  /** Python's `s.replace(from, to)` for single characters. */
  function ReplaceChar(s: string, from: char, to: char): (r: string)
    ensures |r| == |s|
    ensures forall i :: 0 <= i < |s| ==> r[i] == (if s[i] == from then to else s[i])
    ensures from != to ==> Free(r, from)
    ensures Free(s, from) ==> r == s
  {
    seq(|s|, i requires 0 <= i < |s| => if s[i] == from then to else s[i])
  }

  /** Python's `s.replace("\r\n", "")`: one left-to-right pass that removes
      non-overlapping CR-LF pairs; it does not look again at the text it joins. */
  function RemoveCrLf(s: string): (r: string)
    ensures |r| <= |s| && (|s| - |r|) % 2 == 0
    ensures Free(s, '\r') ==> r == s
    ensures Free(s, '\n') ==> r == s
  {
    if |s| >= 2 && s[0] == '\r' && s[1] == '\n' then RemoveCrLf(s[2..])
    else if |s| == 0 then []
    else [s[0]] + RemoveCrLf(s[1..])
  }

  /** The pass works piecewise: cutting the text anywhere except between a CR
      and a following LF does not change the result. */
  lemma {:induction false} RemoveCrLfAppend(a: string, t: string)
    requires |a| > 0 && |t| > 0 ==> a[|a| - 1] != '\r' || t[0] != '\n'
    ensures RemoveCrLf(a + t) == RemoveCrLf(a) + RemoveCrLf(t)
    decreases |a|, 1
  {
    if |a| == 0 {
      assert a + t == t;
    } else if |a| >= 2 && a[0] == '\r' && a[1] == '\n' {
      RemoveCrLfAppendPair(a, t);
    } else {
      RemoveCrLfAppendCons(a, t);
    }
  }

  lemma {:induction false} RemoveCrLfAppendPair(a: string, t: string)
    requires |a| >= 2 && a[0] == '\r' && a[1] == '\n'
    requires |t| > 0 ==> a[|a| - 1] != '\r' || t[0] != '\n'
    ensures RemoveCrLf(a + t) == RemoveCrLf(a) + RemoveCrLf(t)
    decreases |a|, 0
  {
    var rest := a[2..];
    calc {
      RemoveCrLf(a + t);
      == { assert a + t == "\r\n" + (rest + t); RemoveCrLfPair(rest + t); }
      RemoveCrLf(rest + t);
      == { RemoveCrLfAppend(rest, t); }
      RemoveCrLf(rest) + RemoveCrLf(t);
      == { assert a == "\r\n" + rest; RemoveCrLfPair(rest); }
      RemoveCrLf(a) + RemoveCrLf(t);
    }
  }

  lemma {:induction false} RemoveCrLfAppendCons(a: string, t: string)
    requires |a| > 0 && !(|a| >= 2 && a[0] == '\r' && a[1] == '\n')
    requires |t| > 0 ==> a[|a| - 1] != '\r' || t[0] != '\n'
    ensures RemoveCrLf(a + t) == RemoveCrLf(a) + RemoveCrLf(t)
    decreases |a|, 0
  {
    var rest := a[1..];
    calc {
      RemoveCrLf(a + t);
      == { assert a + t == [a[0]] + (rest + t); RemoveCrLfCons(a[0], rest + t); }
      [a[0]] + RemoveCrLf(rest + t);
      == { RemoveCrLfAppend(rest, t); }
      [a[0]] + (RemoveCrLf(rest) + RemoveCrLf(t));
      ([a[0]] + RemoveCrLf(rest)) + RemoveCrLf(t);
      == { assert a == [a[0]] + rest; RemoveCrLfCons(a[0], rest); }
      RemoveCrLf(a) + RemoveCrLf(t);
    }
  }

  /** A leading CR-LF pair is removed. */
  lemma RemoveCrLfPair(s: string)
    ensures RemoveCrLf("\r\n" + s) == RemoveCrLf(s)
  {
    assert ("\r\n" + s)[2..] == s;
  }

  /** A leading character that does not start a pair is kept. */
  lemma RemoveCrLfCons(c: char, s: string)
    requires c != '\r' || |s| == 0 || s[0] != '\n'
    ensures RemoveCrLf([c] + s) == [c] + RemoveCrLf(s)
  {
    assert ([c] + s)[1..] == s;
  }

  /** Every CR-LF pair the pass meets is removed and nothing else around it changes. */
  lemma RemoveCrLfDropsPair(a: string, b: string)
    ensures RemoveCrLf(a + "\r\n" + b) == RemoveCrLf(a) + RemoveCrLf(b)
  {
    var t := "\r\n" + b;
    assert a + "\r\n" + b == a + t;
    RemoveCrLfAppend(a, t);
    assert t[2..] == b;
  }

  /** A single pass leaves a pair behind when removing one creates another. */
  lemma RemoveCrLfSinglePass()
    ensures RemoveCrLf("\r\r\n\n") == "\r\n"
  {
    assert RemoveCrLf("\n") == "\n";
    assert RemoveCrLf("\r\n\n") == RemoveCrLf("\n");
    assert "\r\r\n\n"[1..] == "\r\n\n";
  }

  predicate IsDigit(c: char) {
    '0' <= c <= '9'
  }

  ghost predicate AllDigits(s: string) {
    forall i :: 0 <= i < |s| ==> IsDigit(s[i])
  }

  /** The number a string of decimal digits denotes. */
  function DigitsValue(s: string): nat
    requires forall i :: 0 <= i < |s| ==> IsDigit(s[i])
  {
    if |s| == 0 then 0 else DigitsValue(s[..|s| - 1]) * 10 + DigitOf(s[|s| - 1])
  }

  function DigitOf(c: char): (d: nat)
    requires IsDigit(c)
    ensures d < 10
  {
    c as int - '0' as int
  }

  /** Python's `int(s)` restricted to plain digit strings: `None` is the `ValueError`. */
  function ParseNat(s: string): (r: Option<nat>)
    ensures r.Some? <==> |s| > 0 && AllDigits(s)
  {
    if |s| > 0 && forall i :: 0 <= i < |s| ==> IsDigit(s[i]) then Some(DigitsValue(s)) else None
  }

  function Digit(d: nat): (c: char)
    requires d < 10
    ensures IsDigit(c) && DigitOf(c) == d
  {
    ('0' as int + d) as char
  }

  /** The decimal rendering of `n`, without leading zeros. */
  function ShowNat(n: nat): (s: string)
    ensures |s| > 0 && AllDigits(s)
    ensures n > 0 ==> s[0] != '0'
  {
    if n < 10 then [Digit(n)] else ShowNat(n / 10) + [Digit(n % 10)]
  }

  /** Parsing the rendering of a number gives that number back. */
  lemma {:induction false} ParseShowNat(n: nat)
    ensures ParseNat(ShowNat(n)) == Some(n)
  {
    DigitsShowNat(n);
  }

  lemma {:induction false} DigitsShowNat(n: nat)
    ensures DigitsValue(ShowNat(n)) == n
  {
    if n >= 10 {
      var s := ShowNat(n);
      assert s[..|s| - 1] == ShowNat(n / 10);
      DigitsShowNat(n / 10);
    }
  }

  function Pow10(k: nat): (p: nat)
    ensures p >= 1
  {
    if k == 0 then 1 else 10 * Pow10(k - 1)
  }

  lemma ShiftDigit(x: int, p: int, v: int, d: int, whole: int, power: int, tail: int)
    requires whole == (x * p + v) * 10 + d && power == p * 10 && tail == v * 10 + d
    ensures whole == x * power + tail
  {
  }

  /** The value of a concatenation of digit strings. */
  lemma {:induction false} DigitsAppend(a: string, b: string)
    requires AllDigits(a) && AllDigits(b)
    ensures AllDigits(a + b)
    ensures DigitsValue(a + b) == DigitsValue(a) * Pow10(|b|) + DigitsValue(b)
  {
    if |b| > 0 {
      var b' := b[..|b| - 1];
      var d := DigitOf(b[|b| - 1]);
      assert (a + b)[..|a + b| - 1] == a + b' && (a + b)[|a + b| - 1] == b[|b| - 1];
      DigitsAppend(a, b');
      ShiftDigit(DigitsValue(a), Pow10(|b'|), DigitsValue(b'), d, DigitsValue(a + b), Pow10(|b|), DigitsValue(b));
    } else {
      assert a + b == a;
    }
  }
}
