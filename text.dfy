/** String helpers shared by the model: the few operations of Python's `str`
    that the downloader relies on, and decimal rendering/parsing of integers. */
module Text {
  import opened Wrappers

  /** Position of the first `c` in `s`, or `|s|` when there is none. */
  function IndexOf(s: string, c: char): (r: nat)
    ensures r <= |s|
    ensures r < |s| ==> s[r] == c
    ensures forall i :: 0 <= i < r ==> s[i] != c
  {
    if s == [] then 0
    else if s[0] == c then 0
    else 1 + IndexOf(s[1..], c)
  }

  /** The first `c` of `a + [c] + b` is the one after `a` when `a` has none. */
  lemma {:induction false} IndexOfAfter(a: string, c: char, b: string)
    requires c !in a
    ensures IndexOf(a + [c] + b, c) == |a|
  {
    var s := a + [c] + b;
    if a != [] {
      assert s[0] == a[0];
      assert s[1..] == a[1..] + [c] + b;
      IndexOfAfter(a[1..], c, b);
    }
  }

  /** `s.split(c)[0]`: everything before the first `c`. */
  function BeforeFirst(s: string, c: char): (r: string)
    ensures c !in r
    ensures c in s <==> |r| < |s|
    ensures |r| <= |s| && r == s[..|r|]
  {
    s[..IndexOf(s, c)]
  }

  /** `s.split(c)`: the pieces between the separators, at least one. */
  function Split(s: string, c: char): (r: seq<string>)
    ensures |r| >= 1
    ensures forall i :: 0 <= i < |r| ==> c !in r[i]
    decreases |s|
  {
    var i := IndexOf(s, c);
    if i == |s| then [s] else [s[..i]] + Split(s[i + 1..], c)
  }

  /** `c.join(parts)`. */
  function JoinWith(parts: seq<string>, c: char): (r: string)
    ensures |parts| >= 1 ==> StartsWith(r, parts[0])
  {
    if parts == [] then ""
    else if |parts| == 1 then parts[0]
    else parts[0] + [c] + JoinWith(parts[1..], c)
  }

  lemma IndexOfAbsent(a: string, c: char)
    requires c !in a
    ensures IndexOf(a, c) == |a|
  {
  }

  /** Splitting a join gives the pieces back when none holds the separator. */
  lemma {:induction false} SplitJoin(parts: seq<string>, c: char)
    requires |parts| >= 1
    requires forall i :: 0 <= i < |parts| ==> c !in parts[i]
    ensures Split(JoinWith(parts, c), c) == parts
  {
    if |parts| == 1 {
      IndexOfAbsent(parts[0], c);
    } else {
      var rest := JoinWith(parts[1..], c);
      var s := parts[0] + [c] + rest;
      assert JoinWith(parts, c) == s;
      IndexOfAfter(parts[0], c, rest);
      var i := |parts[0]|;
      assert s[..i] == parts[0];
      assert s[i + 1..] == rest;
      assert Split(s, c) == [parts[0]] + Split(rest, c);
      SplitJoin(parts[1..], c);
      assert parts == [parts[0]] + parts[1..];
    }
  }

  /** `str.startswith`. */
  predicate StartsWith(s: string, prefix: string)
  {
    |prefix| <= |s| && s[..|prefix|] == prefix
  }

  /** `str.endswith`: the empty suffix ends every string. */
  predicate EndsWith(s: string, suffix: string)
  {
    |suffix| <= |s| && s[|s| - |suffix|..] == suffix
  }

  /** Python's `sub in s` for strings. */
  predicate Contains(s: string, sub: string)
  {
    exists i | 0 <= i <= |s| - |sub| :: OccursAt(s, sub, i)
  }

  predicate OccursAt(s: string, sub: string, i: nat)
  {
    i + |sub| <= |s| && s[i..i + |sub|] == sub
  }

  /** `str.lower()` restricted to ASCII letters. */
  function LowerChar(c: char): (r: char)
    ensures 'A' <= c <= 'Z' ==> 'a' <= r <= 'z'
    ensures !('A' <= c <= 'Z') ==> r == c
  {
    if 'A' <= c <= 'Z' then (c as int - 'A' as int + 'a' as int) as char else c
  }

  function Lower(s: string): (r: string)
    ensures |r| == |s|
    ensures forall i :: 0 <= i < |s| ==> r[i] == LowerChar(s[i])
  {
    if s == [] then [] else [LowerChar(s[0])] + Lower(s[1..])
  }

  /** Lower-casing commutes with dropping a prefix. */
  lemma LowerDrop(a: string, b: string, k: nat)
    requires Lower(a) == Lower(b) && k <= |a|
    ensures Lower(a[k..]) == Lower(b[k..])
  {
    forall j | 0 <= j < |a| - k
      ensures Lower(a[k..])[j] == Lower(b[k..])[j]
    {
      assert Lower(a)[k + j] == Lower(b)[k + j];
    }
  }

  /** Strings that are the same once lower-cased have their dots at the same places. */
  lemma LowerKeepsDots(a: string, b: string)
    requires Lower(a) == Lower(b)
    ensures |a| == |b| && forall i :: 0 <= i < |a| ==> (a[i] == '.' <==> b[i] == '.')
  {
    forall i | 0 <= i < |a|
      ensures a[i] == '.' <==> b[i] == '.'
    {
      assert LowerChar(a[i]) == Lower(a)[i] == Lower(b)[i] == LowerChar(b[i]);
      LowerCharDot(a[i]);
      LowerCharDot(b[i]);
    }
  }

  lemma LowerCharDot(c: char)
    ensures LowerChar(c) == '.' <==> c == '.'
  {
  }

  predicate IsDigit(c: char)
  {
    '0' <= c <= '9'
  }

  predicate AllDigits(s: string)
  {
    forall i :: 0 <= i < |s| ==> IsDigit(s[i])
  }

  function DigitChar(d: nat): (c: char)
    requires d < 10
    ensures IsDigit(c) && c as int - '0' as int == d
  {
    ('0' as int + d) as char
  }

  /** The decimal numeral of `n`, without leading zeros. */
  function NatToString(n: nat): (r: string)
    ensures |r| >= 1 && AllDigits(r)
    ensures r[0] == '0' ==> n == 0
    ensures n < 10 <==> |r| == 1
  {
    if n < 10 then [DigitChar(n)] else NatToString(n / 10) + [DigitChar(n % 10)]
  }

  /** Python's `str(i)` for an `int`. */
  function IntToString(i: int): (r: string)
    ensures |r| >= 1
    ensures i < 0 <==> r[0] == '-'
  {
    if i < 0 then "-" + NatToString(-i) else NatToString(i)
  }

  /** The value of a string of decimal digits. */
  function DigitsValue(s: string): nat
    requires AllDigits(s)
  {
    if s == [] then 0
    else DigitsValue(s[..|s| - 1]) * 10 + (s[|s| - 1] as int - '0' as int)
  }

  lemma {:induction false} DigitsValueOfNatToString(n: nat)
    ensures DigitsValue(NatToString(n)) == n
  {
    if n >= 10 {
      DigitsValueOfNatToString(n / 10);
      var r := NatToString(n);
      assert r[..|r| - 1] == NatToString(n / 10);
    }
  }

  /** A numeral as `str()` writes an integer: an optional minus and at least one digit. */
  function ReadNumeral(s: string): Option<int>
  {
    if |s| >= 1 && AllDigits(s) then Some(DigitsValue(s))
    else if |s| >= 2 && s[0] == '-' && AllDigits(s[1..]) then Some(-(DigitsValue(s[1..]) as int))
    else None
  }

  /** Python's `str.isspace()` for one character: the ASCII controls from
      tab to carriage return, the four separators U+001C to U+001F, the space,
      and the Unicode spaces and line separators. */
  predicate IsSpace(c: char)
  {
    || ('\t' <= c <= '\r') || ('\U{1C}' <= c <= ' ')
    || c == '\U{85}' || c == '\U{A0}' || c == '\U{1680}' || ('\U{2000}' <= c <= '\U{200A}')
    || c == '\U{2028}' || c == '\U{2029}' || c == '\U{202F}' || c == '\U{205F}' || c == '\U{3000}'
  }

  predicate AllSpace(s: string)
  {
    forall i :: 0 <= i < |s| ==> IsSpace(s[i])
  }

  /** `s.lstrip()`, without the leading whitespace. */
  function StripLeft(s: string): string
  {
    if s != [] && IsSpace(s[0]) then StripLeft(s[1..]) else s
  }

  /** `s.rstrip()`, without the trailing whitespace. */
  function StripRight(s: string): string
  {
    if s != [] && IsSpace(s[|s| - 1]) then StripRight(s[..|s| - 1]) else s
  }

  /** `s.strip()`, which `int()` applies to its argument first. */
  function Strip(s: string): string
  {
    StripRight(StripLeft(s))
  }

  /** `lstrip` drops exactly the leading run of whitespace. */
  lemma {:induction false} StripLeftDrops(s: string)
    ensures var r := StripLeft(s); |r| <= |s| && r == s[|s| - |r|..]
    ensures var r := StripLeft(s); forall i :: 0 <= i < |s| - |r| ==> IsSpace(s[i])
    ensures var r := StripLeft(s); r != [] ==> !IsSpace(r[0])
  {
    if s != [] && IsSpace(s[0]) {
      StripLeftDrops(s[1..]);
      var r := StripLeft(s[1..]);
      assert forall i :: 1 <= i < |s| - |r| ==> s[i] == s[1..][i - 1];
    }
  }

  /** `rstrip` drops exactly the trailing run of whitespace. */
  lemma {:induction false} StripRightDrops(s: string)
    ensures var r := StripRight(s); |r| <= |s| && r == s[..|r|]
    ensures var r := StripRight(s); forall i :: |r| <= i < |s| ==> IsSpace(s[i])
    ensures var r := StripRight(s); r != [] ==> !IsSpace(r[|r| - 1])
  {
    if s != [] && IsSpace(s[|s| - 1]) {
      StripRightDrops(s[..|s| - 1]);
      var r := StripRight(s[..|s| - 1]);
      assert forall i :: |r| <= i < |s| - 1 ==> s[i] == s[..|s| - 1][i];
    }
  }

  lemma {:induction false} StripLeftSpaces(w: string, x: string)
    requires AllSpace(w)
    ensures StripLeft(w + x) == StripLeft(x)
  {
    if w == [] {
      assert w + x == x;
    } else {
      assert (w + x)[0] == w[0] && IsSpace(w[0]);
      assert (w + x)[1..] == w[1..] + x;
      StripLeftSpaces(w[1..], x);
    }
  }

  lemma {:induction false} StripRightSpaces(x: string, w: string)
    requires AllSpace(w)
    ensures StripRight(x + w) == StripRight(x)
  {
    if w == [] {
      assert x + w == x;
    } else {
      var v := w[..|w| - 1];
      assert (x + w)[|x + w| - 1] == w[|w| - 1] && IsSpace(w[|w| - 1]);
      assert (x + w)[..|x + w| - 1] == x + v;
      StripRightSpaces(x, v);
    }
  }

  lemma {:induction false} StripSpacesAfter(x: string, w: string)
    requires AllSpace(w)
    ensures StripRight(StripLeft(x + w)) == StripRight(StripLeft(x))
  {
    if x == [] {
      assert [] + w == w + [];
      StripLeftSpaces(w, []);
    } else if IsSpace(x[0]) {
      assert (x + w)[1..] == x[1..] + w;
      StripSpacesAfter(x[1..], w);
    } else {
      StripRightSpaces(x, w);
    }
  }

  /** Digits with single underscores between them, as `int()` reads them after
      the sign. `afterDigit` says that a digit was just read, so that `b` may
      open with one underscore. */
  predicate Separated(b: string, afterDigit: bool)
  {
    && (afterDigit || (|b| >= 1 && IsDigit(b[0])))
    && (|b| >= 1 ==> IsDigit(b[|b| - 1]))
    && (forall i :: 0 <= i < |b| ==> IsDigit(b[i]) || b[i] == '_')
    && (forall i :: 0 <= i < |b| - 1 ==> b[i] != '_' || b[i + 1] != '_')
  }

  /** The digits of `b`, its underscores dropped. */
  function Unseparated(b: string): (r: string)
    ensures (forall i :: 0 <= i < |b| ==> IsDigit(b[i]) || b[i] == '_') ==> AllDigits(r)
    ensures AllDigits(b) ==> r == b
  {
    if b == [] then [] else (if b[0] == '_' then [] else [b[0]]) + Unseparated(b[1..])
  }

  /** The text after an optional leading sign. */
  function Unsigned(t: string): (r: string)
    ensures |r| <= |t|
  {
    if |t| >= 1 && (t[0] == '+' || t[0] == '-') then t[1..] else t
  }

  /** A base-10 literal as `int()` accepts it once stripped. */
  predicate DecimalLiteral(t: string)
  {
    Separated(Unsigned(t), false)
  }

  /** Reads the digits of `b` from the left onto `acc`, skipping one underscore
      after a digit; `None` at any other character and at a trailing underscore. */
  function ScanDigits(b: string, acc: nat, afterDigit: bool): Option<nat>
    decreases |b|
  {
    if b == [] then (if afterDigit then Some(acc) else None)
    else if IsDigit(b[0]) then ScanDigits(b[1..], acc * 10 + (b[0] as int - '0' as int), true)
    else if b[0] == '_' && afterDigit then ScanDigits(b[1..], acc, false)
    else None
  }

  /** After a digit, the rest may open with an underscore. */
  lemma SeparatedAfterDigit(b: string, afterDigit: bool)
    requires |b| >= 1 && IsDigit(b[0])
    ensures Separated(b, afterDigit) == Separated(b[1..], true)
  {
    var t := b[1..];
    assert forall i :: 0 <= i < |t| ==> t[i] == b[i + 1];
    if Separated(t, true) {
      assert forall i :: 1 <= i < |b| ==> b[i] == t[i - 1];
    }
  }

  /** After an underscore the rest must open with a digit. */
  lemma SeparatedAfterUnderscore(b: string)
    requires |b| >= 1 && b[0] == '_'
    ensures Separated(b, true) == Separated(b[1..], false)
  {
    var t := b[1..];
    assert forall i :: 0 <= i < |t| ==> t[i] == b[i + 1];
    if Separated(t, false) {
      assert forall i :: 1 <= i < |b| ==> b[i] == t[i - 1];
    }
    if Separated(b, true) {
      assert |b| >= 2 && b[1] != '_';
    }
  }

  /** The scan succeeds exactly on separated digits, with the value of the
      digits read so far followed by those of `b`. */
  lemma {:induction false} ScanDigitsValue(b: string, p: string, afterDigit: bool)
    requires AllDigits(p)
    ensures ScanDigits(b, DigitsValue(p), afterDigit) ==
            if Separated(b, afterDigit) then Some(DigitsValue(p + Unseparated(b))) else None
    decreases |b|, 1
  {
    if b == [] {
      assert p + Unseparated(b) == p;
    } else if IsDigit(b[0]) {
      ScanDigitStep(b, p, afterDigit);
    } else if b[0] == '_' && afterDigit {
      ScanUnderscoreStep(b, p);
    } else {
      assert !Separated(b, afterDigit);
    }
  }

  lemma {:induction false} ScanDigitStep(b: string, p: string, afterDigit: bool)
    requires AllDigits(p) && |b| >= 1 && IsDigit(b[0])
    ensures ScanDigits(b, DigitsValue(p), afterDigit) ==
            if Separated(b, afterDigit) then Some(DigitsValue(p + Unseparated(b))) else None
    decreases |b|, 0
  {
    var q := p + [b[0]];
    DigitsValueSnoc(p, b[0]);
    assert ScanDigits(b, DigitsValue(p), afterDigit) == ScanDigits(b[1..], DigitsValue(q), true);
    ScanDigitsValue(b[1..], q, true);
    var u := Unseparated(b[1..]);
    UnseparatedDigit(b);
    assert q + u == p + ([b[0]] + u);
    SeparatedAfterDigit(b, afterDigit);
  }

  lemma {:induction false} ScanUnderscoreStep(b: string, p: string)
    requires AllDigits(p) && |b| >= 1 && b[0] == '_'
    ensures ScanDigits(b, DigitsValue(p), true) ==
            if Separated(b, true) then Some(DigitsValue(p + Unseparated(b))) else None
    decreases |b|, 0
  {
    assert ScanDigits(b, DigitsValue(p), true) == ScanDigits(b[1..], DigitsValue(p), false);
    ScanDigitsValue(b[1..], p, false);
    assert Unseparated(b) == Unseparated(b[1..]);
    SeparatedAfterUnderscore(b);
  }

  /** One more digit at the right is one more place of value. */
  lemma DigitsValueSnoc(p: string, c: char)
    requires AllDigits(p) && IsDigit(c)
    ensures AllDigits(p + [c]) && DigitsValue(p + [c]) == DigitsValue(p) * 10 + (c as int - '0' as int)
  {
    assert (p + [c])[..|p|] == p;
  }

  lemma UnseparatedDigit(b: string)
    requires |b| >= 1 && IsDigit(b[0])
    ensures Unseparated(b) == [b[0]] + Unseparated(b[1..])
  {
  }

  /** The integer a stripped literal denotes: its digits without underscores, negated after a minus. */
  function LiteralValue(t: string): int
    requires DecimalLiteral(t)
  {
    var n := DigitsValue(Unseparated(Unsigned(t)));
    if t[0] == '-' then -(n as int) else n
  }

  /** The scan from nothing read accepts exactly the literals, with their digits' value. */
  lemma ScanLiteral(t: string)
    ensures ScanDigits(Unsigned(t), 0, false) ==
            if DecimalLiteral(t) then Some(DigitsValue(Unseparated(Unsigned(t)))) else None
  {
    var b := Unsigned(t);
    ScanDigitsValue(b, [], false);
    assert [] + Unseparated(b) == Unseparated(b);
  }

  /** Python's `int(s)` for a `str`, in base 10: surrounding whitespace is
      stripped, then an optional sign and digits with single underscores
      between them are read; `None` where `int()` raises `ValueError`. */
  function ParseInt(s: string): (r: Option<int>)
    ensures r.Some? <==> DecimalLiteral(Strip(s))
    ensures r.Some? ==> r.value == LiteralValue(Strip(s))
  {
    var t := Strip(s);
    var b := Unsigned(t);
    ScanLiteral(t);
    match ScanDigits(b, 0, false)
    case None => None
    case Some(n) => if |t| >= 1 && t[0] == '-' then Some(-(n as int)) else Some(n)
  }

  /** Whitespace around the text does not change what `int()` reads. */
  lemma {:induction false} ParseIntStrips(w1: string, s: string, w2: string)
    requires AllSpace(w1) && AllSpace(w2)
    ensures ParseInt(w1 + s + w2) == ParseInt(s)
  {
    assert w1 + s + w2 == w1 + (s + w2);
    StripLeftSpaces(w1, s + w2);
    StripSpacesAfter(s, w2);
  }

  /** An underscore between two runs of digits is skipped. */
  lemma {:induction false} ParseIntUnderscore(a: string, c: string)
    requires |a| >= 1 && AllDigits(a) && |c| >= 1 && AllDigits(c)
    ensures ParseInt(a + "_" + c) == Some(DigitsValue(a + c))
  {
    var b := a + "_" + c;
    assert !IsSpace(b[0]) && !IsSpace(b[|b| - 1]);
    assert Strip(b) == b;
    assert Unsigned(b) == b;
    forall i | 0 <= i < |b| - 1
      ensures b[i] != '_' || b[i + 1] != '_'
    {
      if i < |a| - 1 { assert b[i] == a[i]; }
      else if i > |a| { assert b[i] == c[i - |a| - 1]; }
    }
    assert Separated(b, false);
    UnseparatedSplit(a, c);
  }

  lemma {:induction false} UnseparatedSplit(a: string, c: string)
    requires AllDigits(a) && AllDigits(c)
    ensures Unseparated(a + "_" + c) == a + c
  {
    if a == [] {
      assert ("_" + c)[1..] == c;
    } else {
      assert (a + "_" + c)[1..] == a[1..] + "_" + c;
      UnseparatedSplit(a[1..], c);
    }
  }

  /** What `str()` writes is read the same way by `int()`. */
  lemma {:induction false} NumeralParses(s: string)
    requires ReadNumeral(s).Some?
    ensures ParseInt(s) == ReadNumeral(s)
  {
    assert !IsSpace(s[0]) && !IsSpace(s[|s| - 1]);
    assert Strip(s) == s;
    if s[0] == '-' {
      assert Unsigned(s) == s[1..];
    } else {
      assert Unsigned(s) == s;
    }
  }

  /** Reading back what `str()` wrote gives the same integer. */
  lemma NumeralRoundTrip(i: int)
    ensures ReadNumeral(IntToString(i)) == Some(i)
  {
    if i < 0 {
      assert IntToString(i) == "-" + NatToString(-i);
      DigitsValueOfNatToString(-i);
      NegativeNumeral(NatToString(-i));
    } else {
      assert IntToString(i) == NatToString(i);
      DigitsValueOfNatToString(i);
      PositiveNumeral(NatToString(i));
    }
  }

  lemma PositiveNumeral(d: string)
    requires |d| >= 1 && AllDigits(d)
    ensures ReadNumeral(d) == Some(DigitsValue(d))
  {
  }

  lemma NegativeNumeral(d: string)
    requires |d| >= 1 && AllDigits(d)
    ensures ReadNumeral("-" + d) == Some(-(DigitsValue(d) as int))
  {
    var r := "-" + d;
    assert r[1..] == d;
    assert !IsDigit(r[0]);
  }

  /** `int(str(i)) == i`, and so with whitespace around the numeral. */
  lemma IntToStringRoundTrip(i: int, w1: string, w2: string)
    requires AllSpace(w1) && AllSpace(w2)
    ensures ParseInt(w1 + IntToString(i) + w2) == Some(i)
  {
    NumeralRoundTrip(i);
    NumeralParses(IntToString(i));
    ParseIntStrips(w1, IntToString(i), w2);
  }

  /** Where `int()` raises: doubled, leading or trailing underscores, a space
      after the sign, and text that is empty once stripped. */
  lemma {:induction false} ParseIntRejects()
    ensures ParseInt("1__0").None? && ParseInt("_1").None? && ParseInt("1_").None?
    ensures ParseInt("- 5").None? && ParseInt("").None? && ParseInt(" ").None?
  {
    assert Strip("1__0") == "1__0" && Unsigned("1__0") == "1__0";
    assert !Separated("1__0", false) by { assert "1__0"[1] == '_' && "1__0"[2] == '_'; }
    assert Strip("_1") == "_1" && Unsigned("_1") == "_1";
    assert Strip("1_") == "1_" && Unsigned("1_") == "1_";
    assert Strip("- 5") == "- 5" && Unsigned("- 5") == " 5";
    assert StripLeft(" ") == StripLeft("") == "";
  }
}
