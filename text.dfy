/** The optional value used for Python's `None`-or-value returns. */
module Wrappers {
  datatype Option<+T> = None | Some(value: T)
}

/**
 * String helpers shared by the media-engine modules: the parts of Python's
 * `str` API the watermarker relies on (`replace`, `lower`, `endswith`, `in`,
 * `strip`, `str(int)` and `int(str)`), restricted to what the program uses.
 */
module Text {
  import opened Wrappers

  /** Python's `str.replace(c, r)` for a one-character `c`: every occurrence, left to right. */
  function ReplaceAll(s: string, c: char, r: string): string
  {
    if s == [] then []
    else (if s[0] == c then r else [s[0]]) + ReplaceAll(s[1..], c, r)
  }

  /** `replace` works piecewise: replacing in a concatenation replaces in each part. */
  lemma {:induction false} ReplaceAllAppend(a: string, b: string, c: char, r: string)
    ensures ReplaceAll(a + b, c, r) == ReplaceAll(a, c, r) + ReplaceAll(b, c, r)
  {
    if a == [] {
      assert a + b == b;
    } else {
      var ab := a + b;
      assert ab[0] == a[0];
      assert ab[1..] == a[1..] + b;
      ReplaceAllAppend(a[1..], b, c, r);
    }
  }

  /** Replacing a character that does not occur changes nothing. */
  lemma {:induction false} ReplaceAllAbsent(s: string, c: char, r: string)
    requires c !in s
    ensures ReplaceAll(s, c, r) == s
  {
    if s != [] {
      assert c !in s[1..] by {
        forall i | 0 <= i < |s[1..]| ensures s[1..][i] != c {
          assert s[1..][i] == s[i + 1];
        }
      }
      ReplaceAllAbsent(s[1..], c, r);
    }
  }

  /** `replace` on a one-character string. */
  lemma ReplaceAllSingle(x: char, c: char, r: string)
    ensures ReplaceAll([x], c, r) == if x == c then r else [x]
  {
    assert [x][1..] == [];
    assert ReplaceAll([], c, r) == [];
  }

  /** Each occurrence of `c` turns into `|r|` characters. */
  lemma {:induction false} ReplaceAllLength(s: string, c: char, r: string)
    ensures |ReplaceAll(s, c, r)| == |s| - Count(s, c) + Count(s, c) * |r|
  {
    if s != [] {
      ReplaceAllLength(s[1..], c, r);
      if s[0] == c {
        assert Count(s, c) == Count(s[1..], c) + 1;
        assert Count(s, c) * |r| == Count(s[1..], c) * |r| + |r|;
      }
    }
  }

  /** A replacement that does not itself contain `c` leaves no `c` behind. */
  lemma {:induction false} ReplaceAllRemoves(s: string, c: char, r: string)
    requires c !in r
    ensures c !in ReplaceAll(s, c, r)
  {
    if s != [] {
      ReplaceAllRemoves(s[1..], c, r);
    }
  }

  /** Python's `s.rfind(c)`: the index of the last `c` in `s`, or -1. */
  function LastIndexOf(s: string, c: char): (i: int)
    ensures -1 <= i < |s|
    ensures i >= 0 ==> s[i] == c
    ensures forall j :: i < j < |s| ==> s[j] != c
  {
    if s == [] then -1
    else if s[|s| - 1] == c then |s| - 1
    else LastIndexOf(s[..|s| - 1], c)
  }

  /** The last `c` of `prefix + tail` is the one ending `prefix` when `tail` has none. */
  lemma {:induction false} LastIndexOfAppend(prefix: string, tail: string, c: char)
    requires c !in tail
    requires prefix != [] ==> prefix[|prefix| - 1] == c
    ensures LastIndexOf(prefix + tail, c) == |prefix| - 1
  {
    if tail != [] {
      var s := prefix + tail;
      assert s[|s| - 1] == tail[|tail| - 1];
      assert s[..|s| - 1] == prefix + tail[..|tail| - 1];
      LastIndexOfAppend(prefix, tail[..|tail| - 1], c);
    } else {
      assert prefix + tail == prefix;
      if prefix == [] {
        assert LastIndexOf(prefix, c) == -1;
      }
    }
  }

  /** Number of occurrences of `c` in `s`. */
  function Count(s: string, c: char): nat
  {
    if s == [] then 0 else (if s[0] == c then 1 else 0) + Count(s[1..], c)
  }

  lemma CountZero(s: string, c: char)
    ensures Count(s, c) == 0 <==> c !in s
  {
    if s != [] {
      CountZero(s[1..], c);
      assert s == [s[0]] + s[1..];
    }
  }

  lemma {:induction false} CountAppend(a: string, b: string, c: char)
    ensures Count(a + b, c) == Count(a, c) + Count(b, c)
  {
    if a == [] {
      assert a + b == b;
    } else {
      assert (a + b)[1..] == a[1..] + b;
      CountAppend(a[1..], b, c);
    }
  }

  function LowerChar(ch: char): char
  {
    if 'A' <= ch <= 'Z' then (ch as int + 32) as char else ch
  }

  /** `str.lower()` on ASCII letters; every other character is kept. */
  function Lower(s: string): (t: string)
    ensures |t| == |s|
    ensures forall i :: 0 <= i < |s| ==> t[i] == LowerChar(s[i])
  {
    seq(|s|, i requires 0 <= i < |s| => LowerChar(s[i]))
  }

  predicate EndsWith(s: string, suffix: string)
  {
    |suffix| <= |s| && s[|s| - |suffix|..] == suffix
  }

  /** A suffix of `b` is a suffix of `a + b`. */
  lemma EndsWithAppend(a: string, b: string, suffix: string)
    requires EndsWith(b, suffix)
    ensures EndsWith(a + b, suffix)
  {
    assert (a + b)[|a + b| - |suffix|..] == b[|b| - |suffix|..];
  }

  /** `s.endswith(tuple)`: true when one of the suffixes ends `s`. */
  predicate EndsWithAny(s: string, suffixes: seq<string>)
  {
    exists k :: 0 <= k < |suffixes| && EndsWith(s, suffixes[k])
  }

  /** Python's `sub in s`. */
  predicate Contains(s: string, sub: string)
  {
    exists i | 0 <= i <= |s| - |sub| :: OccursAt(s, sub, i)
  }

  predicate OccursAt(s: string, sub: string, i: int)
  {
    0 <= i && i + |sub| <= |s| && s[i..i + |sub|] == sub
  }

  /** `sub` occurs in `a + b` when it occurs in `b`. */
  lemma {:induction false} ContainsRight(a: string, b: string, sub: string)
    requires Contains(b, sub)
    ensures Contains(a + b, sub)
  {
    var i :| 0 <= i <= |b| - |sub| && OccursAt(b, sub, i);
    assert (a + b)[|a| + i..|a| + i + |sub|] == b[i..i + |sub|];
    assert OccursAt(a + b, sub, |a| + i);
  }

  /** `sub` occurs in `a + b` when it occurs in `a`. */
  lemma {:induction false} ContainsLeft(a: string, b: string, sub: string)
    requires Contains(a, sub)
    ensures Contains(a + b, sub)
  {
    var i :| 0 <= i <= |a| - |sub| && OccursAt(a, sub, i);
    assert (a + b)[i..i + |sub|] == a[i..i + |sub|];
    assert OccursAt(a + b, sub, i);
  }

  /** `str.isspace()` on one character: the Unicode whitespace and the separators 0x1C to 0x1F. */
  predicate IsSpace(c: char)
  {
    || '\t' <= c <= '\r' || '\U{1C}' <= c <= ' ' || c == '\U{85}' || c == '\U{A0}' || c == '\U{1680}'
    || '\U{2000}' <= c <= '\U{200A}' || c == '\U{2028}' || c == '\U{2029}' || c == '\U{202F}'
    || c == '\U{205F}' || c == '\U{3000}'
  }

  /** The characters `str.strip()` removes. */
  const Whitespace: set<char> := set c: char | '\t' <= c <= '\U{3000}' && IsSpace(c)

  /** Drops the longest prefix made of characters in `cs`. */
  function StripLeft(s: string, cs: set<char>): (t: string)
    ensures |t| <= |s| && t == s[|s| - |t|..]
    ensures t != [] ==> t[0] !in cs
    ensures forall i :: 0 <= i < |s| - |t| ==> s[i] in cs
  {
    if s != [] && s[0] in cs then StripLeft(s[1..], cs) else s
  }

  /** Drops the longest suffix made of characters in `cs`. */
  function StripRight(s: string, cs: set<char>): (t: string)
    ensures |t| <= |s| && t == s[..|t|]
    ensures t != [] ==> t[|t| - 1] !in cs
    ensures forall i :: |t| <= i < |s| ==> s[i] in cs
  {
    if s != [] && s[|s| - 1] in cs then StripRight(s[..|s| - 1], cs) else s
  }

  /** Python's `s.strip(chars)`; with `Whitespace` it is `s.strip()`. */
  function Strip(s: string, cs: set<char>): string
  {
    StripRight(StripLeft(s, cs), cs)
  }

  /** `t` is the slice of `s` at `i`, and everything outside it is a character of `cs`. */
  predicate FramedBy(s: string, t: string, i: nat, cs: set<char>)
  {
    && i + |t| <= |s| && t == s[i..i + |t|]
    && (forall k :: 0 <= k < i ==> s[k] in cs)
    && (forall k :: i + |t| <= k < |s| ==> s[k] in cs)
  }

  /** `Strip` removes only characters of `cs`. */
  lemma StripSlice(s: string, cs: set<char>)
    ensures exists i :: FramedBy(s, Strip(s, cs), i, cs)
  {
    var l := StripLeft(s, cs);
    var t := StripRight(l, cs);
    var i := |s| - |l|;
    assert t == s[i..i + |t|] by {
      assert l == s[i..] && t == l[..|t|];
    }
    forall k | i + |t| <= k < |s|
      ensures s[k] in cs
    {
      assert s[k] == l[k - i];
    }
    assert t == Strip(s, cs);
    assert FramedBy(s, Strip(s, cs), i, cs);
  }

  /** Stripping `a` and then `b` removes only characters of either set. */
  lemma StripTwice(s: string, a: set<char>, b: set<char>)
    ensures var v := Strip(Strip(s, a), b);
      (v != [] ==> v[0] !in b && v[|v| - 1] !in b) && exists i :: FramedBy(s, v, i, a + b)
  {
    var w := Strip(s, a);
    StripSlice(s, a);
    StripSlice(w, b);
    var i :| FramedBy(s, w, i, a);
    var j :| FramedBy(w, Strip(w, b), j, b);
    FramedCompose(s, w, Strip(w, b), i, j, a, b);
  }

  /** A slice framed by `b` inside a slice framed by `a` is framed by `a + b`. */
  lemma FramedCompose(s: string, w: string, v: string, i: nat, j: nat, a: set<char>, b: set<char>)
    requires FramedBy(s, w, i, a) && FramedBy(w, v, j, b)
    ensures FramedBy(s, v, i + j, a + b)
  {
    assert forall k :: i <= k < i + |w| ==> s[k] == w[k - i];
    assert v == s[i + j..i + j + |v|];
  }

  /** A string that neither starts nor ends with a character of `cs` is its own strip. */
  lemma StripNoEdges(s: string, cs: set<char>)
    requires s != [] ==> s[0] !in cs && s[|s| - 1] !in cs
    ensures Strip(s, cs) == s
  {
  }

  predicate IsDigit(ch: char)
  {
    '0' <= ch <= '9'
  }

  function DigitChar(d: nat): (ch: char)
    requires d < 10
    ensures IsDigit(ch) && ch as int - '0' as int == d
  {
    ('0' as int + d) as char
  }

  /** The decimal digits of `n`, most significant first, without leading zeros. */
  function NatDigits(n: nat): (s: string)
    ensures s != [] && forall i :: 0 <= i < |s| ==> IsDigit(s[i])
  {
    if n < 10 then [DigitChar(n)] else NatDigits(n / 10) + [DigitChar(n % 10)]
  }

  /** Python's `str(n)` for an `int`. */
  function Decimal(n: int): (s: string)
    ensures s != [] && IsDigit(s[|s| - 1])
    ensures forall i :: 0 <= i < |s| ==> IsDigit(s[i]) || (i == 0 && s[i] == '-')
  {
    if n < 0 then "-" + NatDigits(-n) else NatDigits(n)
  }

  /** The digits of `int()`'s grammar: digits with single underscores between them. */
  predicate DigitRun(d: string)
  {
    && d != []
    && IsDigit(d[0]) && IsDigit(d[|d| - 1])
    && (forall i :: 0 <= i < |d| ==> IsDigit(d[i]) || d[i] == '_')
    && (forall i :: 0 <= i < |d| - 1 ==> d[i] == '_' ==> d[i + 1] != '_')
  }

  /** Value of a run of digits and underscores, the underscores ignored. */
  function RunValue(d: string): nat
  {
    if d == [] then 0
    else if d[|d| - 1] == '_' then RunValue(d[..|d| - 1])
    else RunValue(d[..|d| - 1]) * 10 + (if IsDigit(d[|d| - 1]) then d[|d| - 1] as int - '0' as int else 0)
  }

  /**
   * Python's `int(s)` on a `str`: surrounding whitespace, an optional sign
   * and a run of ASCII digits; `None` stands for the `ValueError` it raises.
   */
  function ParseInt(s: string): Option<int>
  {
    ParseStripped(Strip(s, Whitespace))
  }

  /** `int()`'s grammar once the whitespace is stripped: an optional sign, then a digit run. */
  function ParseStripped(t: string): Option<int>
  {
    if t == [] then None
    else
      var d := if t[0] == '-' || t[0] == '+' then t[1..] else t;
      if !DigitRun(d) then None
      else if t[0] == '-' then Some(-(RunValue(d) as int))
      else Some(RunValue(d) as int)
  }

  lemma {:induction false} RunValueNatDigits(n: nat)
    ensures RunValue(NatDigits(n)) == n
  {
    var s := NatDigits(n);
    if n >= 10 {
      RunValueNatDigits(n / 10);
      assert s[..|s| - 1] == NatDigits(n / 10);
    }
  }

  lemma NatDigitsRun(n: nat)
    ensures DigitRun(NatDigits(n))
  {
  }

  /** Digits and the minus sign are not whitespace. */
  lemma NotSpace(c: char)
    requires IsDigit(c) || c == '-'
    ensures c !in Whitespace
  {
  }

  /** `int(str(n)) == n`: the decimal rendering of the config values parses back. */
  lemma ParseDecimal(n: int)
    ensures ParseInt(Decimal(n)) == Some(n)
  {
    var s := Decimal(n);
    NotSpace(s[0]);
    NotSpace(s[|s| - 1]);
    StripNoEdges(s, Whitespace);
    var k: nat := if n < 0 then -n else n;
    var d := NatDigits(k);
    NatDigitsRun(k);
    RunValueNatDigits(k);
    if n < 0 {
      assert s == "-" + d;
      ParseSigned(d);
    } else {
      assert s == d;
      ParseUnsigned(d);
    }
  }

  /** A `-` followed by a digit run parses as minus the run's value. */
  lemma ParseSigned(d: string)
    requires DigitRun(d)
    ensures ParseStripped("-" + d) == Some(-(RunValue(d) as int))
  {
    assert ("-" + d)[1..] == d;
  }

  /** A digit run parses as its value. */
  lemma ParseUnsigned(d: string)
    requires DigitRun(d)
    ensures ParseStripped(d) == Some(RunValue(d) as int)
  {
  }
}
