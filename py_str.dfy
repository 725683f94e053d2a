/** The Python string built-ins that the parameter compiler and the run registry rely on:
    str.startswith, `in`, slicing, str.split, str.strip, int(), "{:0N}".format and
    os.path.splitext, each for the arguments this code base passes them. */
module PyStr {
  import opened Wrappers

  predicate StartsWith(s: string, prefix: string) {
    |prefix| <= |s| && s[..|prefix|] == prefix
  }

  predicate EndsWith(s: string, suffix: string) {
    |suffix| <= |s| && s[|s| - |suffix|..] == suffix
  }

  /** `sub` occurs in `s` starting at index `i`. */
  predicate OccursAt(s: string, sub: string, i: int) {
    0 <= i <= |s| - |sub| && s[i..i + |sub|] == sub
  }

  /** `sub in s` for two strings. */
  predicate Contains(s: string, sub: string) {
    exists i :: 0 <= i <= |s| - |sub| && OccursAt(s, sub, i)
  }

  /** A substring that begins with a character missing from `a` can only occur in `a + b`
      inside `b`. */
  lemma {:induction false} ContainsOnlyAfter(a: string, b: string, sub: string)
    requires |sub| > 0 && sub[0] !in a
    ensures Contains(a + b, sub) ==> Contains(b, sub)
  {
    if Contains(a + b, sub) {
      var i :| 0 <= i <= |a + b| - |sub| && OccursAt(a + b, sub, i);
      assert i >= |a| by {
        assert (a + b)[i..i + |sub|][0] == (a + b)[i] == sub[0];
        assert forall k :: 0 <= k < |a| ==> (a + b)[k] == a[k];
      }
      SliceOfRight(a, b, i, |sub|);
      assert OccursAt(b, sub, i - |a|);
    }
  }

  /** An occurrence in `b` is still one after anything is put in front of `b`. */
  lemma {:induction false} ContainsAfterPrefix(a: string, b: string, sub: string)
    ensures Contains(b, sub) ==> Contains(a + b, sub)
  {
    if Contains(b, sub) {
      var i :| 0 <= i <= |b| - |sub| && OccursAt(b, sub, i);
      SliceOfRight(a, b, |a| + i, |sub|);
      assert OccursAt(a + b, sub, |a| + i);
    }
  }

  lemma SliceOfRight(a: string, b: string, i: int, n: nat)
    requires |a| <= i && i + n <= |a| + |b|
    ensures (a + b)[i..i + n] == b[i - |a|..i - |a| + n]
  {
    assert forall k :: i <= k < i + n ==> (a + b)[k] == b[k - |a|];
  }

  /** The Python slice `s[start:-1]` for a non-negative `start`. */
  function SliceToLast(s: string, start: nat): string {
    var stop := if |s| == 0 then 0 else |s| - 1;
    if start < stop then s[start..stop] else ""
  }

  /** The index of the first `c` in `s`. */
  function IndexOf(s: string, c: char): (i: nat)
    requires c in s
    ensures i < |s| && s[i] == c && c !in s[..i]
  {
    if s[0] == c then 0
    else
      var j := IndexOf(s[1..], c);
      assert s[..j + 1] == [s[0]] + s[1..][..j];
      j + 1
  }

  /** The pieces joined back together with `c` between neighbours. */
  function Join(pieces: seq<string>, c: char): string {
    if |pieces| == 0 then ""
    else if |pieces| == 1 then pieces[0]
    else pieces[0] + [c] + Join(pieces[1..], c)
  }

  /** `s.split(c)` for a one-character separator. */
  function Split(s: string, c: char): (pieces: seq<string>)
    ensures |pieces| > 0
    decreases |s|
  {
    if c !in s then [s]
    else
      var i := IndexOf(s, c);
      [s[..i]] + Split(s[i + 1..], c)
  }

  /** No piece holds a separator. */
  lemma {:induction false} SplitPiecesFree(s: string, c: char)
    ensures forall i :: 0 <= i < |Split(s, c)| ==> c !in Split(s, c)[i]
    decreases |s|
  {
    if c in s {
      var i := IndexOf(s, c);
      SplitPiecesFree(s[i + 1..], c);
      var rest := Split(s[i + 1..], c);
      assert Split(s, c) == [s[..i]] + rest;
      assert forall k :: 1 <= k < |Split(s, c)| ==> Split(s, c)[k] == rest[k - 1];
    }
  }

  /** Joining the pieces with the separator gives `s` back. */
  lemma {:induction false} SplitJoin(s: string, c: char)
    ensures Join(Split(s, c), c) == s
    decreases |s|
  {
    if c in s {
      var i := IndexOf(s, c);
      var head, tail := s[..i], s[i + 1..];
      SplitJoin(tail, c);
      var rest := Split(tail, c);
      assert Split(s, c) == [head] + rest;
      JoinFront(head, rest, c);
      assert s == head + [c] + tail;
    }
  }

  lemma JoinFront(head: string, rest: seq<string>, c: char)
    requires |rest| > 0
    ensures Join([head] + rest, c) == head + [c] + Join(rest, c)
  {
    assert ([head] + rest)[1..] == rest;
  }

  /** There is one more piece than `s` has separators. */
  lemma {:induction false} SplitCount(s: string, c: char)
    ensures |Split(s, c)| == multiset(s)[c] + 1
    decreases |s|
  {
    if c !in s {
      assert multiset(s)[c] == 0;
    } else {
      var i := IndexOf(s, c);
      SplitCount(s[i + 1..], c);
      assert Split(s, c) == [s[..i]] + Split(s[i + 1..], c);
      assert s == s[..i] + [c] + s[i + 1..];
      assert multiset(s) == multiset(s[..i]) + multiset([c]) + multiset(s[i + 1..]) by {
        calc {
          multiset(s);
          multiset(s[..i] + [c] + s[i + 1..]);
          multiset(s[..i] + [c]) + multiset(s[i + 1..]);
        }
      }
      assert multiset(s[..i])[c] == 0;
    }
  }

  /** When `c` occurs in `s` exactly once, between `a` and `b`, splitting yields `[a, b]`. */
  lemma {:induction false} SplitAround(a: string, b: string, c: char)
    requires c !in a && c !in b
    ensures Split(a + [c] + b, c) == [a, b]
  {
    var s := a + [c] + b;
    var i := IndexOf(s, c);
    assert forall k :: 0 <= k < |a| ==> s[k] == a[k];
    assert s[|a|] == c;
    assert i == |a|;
    assert s[..i] == a;
    assert s[i + 1..] == b;
  }

  /** The first piece of `s.split(c)` is the text before the first `c`. */
  lemma {:induction false} SplitHead(a: string, b: string, c: char)
    requires c !in a
    ensures Split(a + [c] + b, c)[0] == a
  {
    var s := a + [c] + b;
    var i := IndexOf(s, c);
    assert forall k :: 0 <= k < |a| ==> s[k] == a[k];
    assert s[|a|] == c;
    assert s[..i] == a;
  }

  /** The whitespace that int() strips: space, tab, newline, vertical tab, form feed, return. */
  predicate IsSpace(ch: char) {
    ch == ' ' || '\t' <= ch <= '\r'
  }

  function LStrip(s: string): string {
    if |s| > 0 && IsSpace(s[0]) then LStrip(s[1..]) else s
  }

  function RStrip(s: string): string {
    if |s| > 0 && IsSpace(s[|s| - 1]) then RStrip(s[..|s| - 1]) else s
  }

  function Strip(s: string): string {
    LStrip(RStrip(s))
  }

  predicate IsDigit(ch: char) {
    '0' <= ch <= '9'
  }

  predicate AllDigits(s: string) {
    forall i :: 0 <= i < |s| ==> IsDigit(s[i])
  }

  function DigitValue(ch: char): nat
    requires IsDigit(ch)
  {
    (ch as int) - ('0' as int)
  }

  function DigitChar(d: nat): (ch: char)
    requires d < 10
    ensures IsDigit(ch) && DigitValue(ch) == d
  {
    ('0' as int + d) as char
  }

  /** The base-10 number a string of decimal digits denotes. */
  function DecimalValue(s: string): nat
    requires AllDigits(s)
  {
    if s == [] then 0 else DecimalValue(s[..|s| - 1]) * 10 + DigitValue(s[|s| - 1])
  }

  /** The digit text int() accepts after the sign: digits, with single underscores only between
      two digits. */
  predicate IsIntBody(b: string) {
    && |b| > 0
    && IsDigit(b[0])
    && IsDigit(b[|b| - 1])
    && (forall i :: 0 <= i < |b| ==> IsDigit(b[i]) || b[i] == '_')
    && (forall i :: 0 < i < |b| ==> IsDigit(b[i - 1]) || IsDigit(b[i]))
  }

  /** `b` with its underscores dropped. */
  function DropUnderscores(b: string): (r: string)
    requires forall i :: 0 <= i < |b| ==> IsDigit(b[i]) || b[i] == '_'
    ensures AllDigits(r)
    ensures AllDigits(b) ==> r == b
  {
    if b == [] then [] else (if b[0] == '_' then [] else [b[0]]) + DropUnderscores(b[1..])
  }

  function BodyValue(b: string): nat
    requires IsIntBody(b)
  {
    DecimalValue(DropUnderscores(b))
  }

  /** Python's int(text) on a str: Some(n), or None where int() raises ValueError. */
  function ParseInt(text: string): Option<int> {
    var t := Strip(text);
    if |t| > 0 && (t[0] == '+' || t[0] == '-') then
      var body := t[1..];
      if IsIntBody(body) then
        var magnitude: int := BodyValue(body);
        Some(if t[0] == '-' then -magnitude else magnitude)
      else None
    else if IsIntBody(t) then Some(BodyValue(t))
    else None
  }

  /** str(n) for a natural number: its decimal digits, with no leading zero. */
  function Digits(n: nat): (s: string)
    ensures |s| > 0 && AllDigits(s)
    ensures DecimalValue(s) == n
    ensures s[0] == '0' ==> n == 0
  {
    if n < 10 then [DigitChar(n)]
    else
      var s := Digits(n / 10) + [DigitChar(n % 10)];
      assert s[..|s| - 1] == Digits(n / 10);
      s
  }

  function Zeros(k: nat): (s: string)
    ensures |s| == k && AllDigits(s)
  {
    if k == 0 then [] else Zeros(k - 1) + ['0']
  }

  /** `s` padded on the left with '0' to at least `width` characters. */
  function ZeroPad(s: string, width: int): string {
    if |s| < width then Zeros(width - |s|) + s else s
  }

  /** Python's "{:0<width>}".format(n) for an int: zero padding goes between the sign and the
      digits, and the width counts the sign. */
  function FormatZeroPadded(n: int, width: nat): (r: string)
    ensures |r| >= width && |r| > 0
    ensures var len := |Digits(if n < 0 then -n else n)| + (if n < 0 then 1 else 0);
      |r| == if len < width then width else len
  {
    if n < 0 then "-" + ZeroPad(Digits(-n), width - 1) else ZeroPad(Digits(n), width)
  }

  /** The run numbers of the default width: padded to four digits, and never cut. */
  lemma FormatZeroPaddedExamples()
    ensures FormatZeroPadded(1, 4) == "0001"
    ensures FormatZeroPadded(-7, 4) == "-007"
  {
  }

  /** A number wider than the default width keeps all its digits. */
  lemma FormatZeroPaddedNeverCuts()
    ensures FormatZeroPadded(10000, 4) == "10000"
  {
  }

  /** The formatted text is digits, after a minus sign for a negative number. */
  lemma FormatZeroPaddedChars(n: int, width: nat)
    ensures forall i :: 0 <= i < |FormatZeroPadded(n, width)| ==>
      IsDigit(FormatZeroPadded(n, width)[i]) || (i == 0 && FormatZeroPadded(n, width)[i] == '-')
  {
  }

  lemma {:induction false} ZerosValue(k: nat)
    ensures DecimalValue(Zeros(k)) == 0
  {
    if k > 0 {
      assert Zeros(k)[..k - 1] == Zeros(k - 1);
      ZerosValue(k - 1);
    }
  }

  /** Leading zeros do not change a decimal value. */
  lemma {:induction false} LeadingZerosValue(k: nat, s: string)
    requires AllDigits(s)
    ensures AllDigits(Zeros(k) + s) && DecimalValue(Zeros(k) + s) == DecimalValue(s)
  {
    var t := Zeros(k) + s;
    if s == [] {
      assert t == Zeros(k);
      ZerosValue(k);
    } else {
      assert t[..|t| - 1] == Zeros(k) + s[..|s| - 1];
      LeadingZerosValue(k, s[..|s| - 1]);
    }
  }

  lemma {:induction false} StripUntouched(t: string)
    requires |t| > 0 && !IsSpace(t[0]) && !IsSpace(t[|t| - 1])
    ensures Strip(t) == t
  {
  }

  /** The value of a zero-padded digit string is the number it pads. */
  lemma {:induction false} PaddedBody(n: nat, width: int)
    ensures IsIntBody(ZeroPad(Digits(n), width))
    ensures AllDigits(ZeroPad(Digits(n), width))
    ensures BodyValue(ZeroPad(Digits(n), width)) == n
  {
    var d := Digits(n);
    var b := ZeroPad(d, width);
    if |d| < width {
      LeadingZerosValue(width - |d|, d);
    }
    assert AllDigits(b);
    assert DropUnderscores(b) == b;
  }

  /** int() reads a digit body back, with or without a leading minus sign. */
  lemma {:induction false} ParseBody(b: string)
    requires IsIntBody(b)
    ensures ParseInt(b) == Some(BodyValue(b))
    ensures ParseInt("-" + b) == Some(-(BodyValue(b) as int))
  {
    StripUntouched(b);
    var r := "-" + b;
    assert r[|r| - 1] == b[|b| - 1];
    StripUntouched(r);
    assert r[1..] == b;
  }

  lemma {:induction false} ParseNegativeFormat(m: nat, width: nat)
    requires m > 0
    ensures ParseInt(FormatZeroPadded(-(m as int), width)) == Some(-(m as int))
  {
    NegativeFormat(m, width);
    ParseNegativePadded(m, width - 1);
  }

  lemma {:induction false} ParseNegativePadded(m: nat, width: int)
    ensures ParseInt("-" + ZeroPad(Digits(m), width)) == Some(-(m as int))
  {
    PaddedBody(m, width);
    ParseBody(ZeroPad(Digits(m), width));
  }

  lemma NegativeFormat(m: nat, width: nat)
    requires m > 0
    ensures FormatZeroPadded(-(m as int), width) == "-" + ZeroPad(Digits(m), width - 1)
  {
  }

  /** int() reads back what "{:0<width>}".format writes, for every int and width. */
  lemma {:induction false} ParseFormatRoundTrip(n: int, width: nat)
    ensures ParseInt(FormatZeroPadded(n, width)) == Some(n)
  {
    if n < 0 {
      ParseNegativeFormat(-n, width);
    } else {
      PaddedBody(n, width);
      ParseBody(ZeroPad(Digits(n), width));
    }
  }

  /** The index of the last `c` in `s`, or -1 (str.rfind). */
  function RFind(s: string, c: char): (i: int)
    ensures -1 <= i < |s|
    ensures i >= 0 ==> s[i] == c
    ensures forall j :: i < j < |s| ==> s[j] != c
  {
    if |s| == 0 then -1
    else if s[|s| - 1] == c then |s| - 1
    else RFind(s[..|s| - 1], c)
  }

  /** os.path.splitext(p)[0] on POSIX: `p` without its final extension. The extension starts at
      the last '.' after the last '/', and only when a character other than '.' comes before that
      dot in the last path component (so ".bashrc" keeps its name). */
  function SplitExtRoot(p: string): string {
    var sepIndex := RFind(p, '/');
    var dotIndex := RFind(p, '.');
    if dotIndex > sepIndex && exists j :: sepIndex < j < dotIndex && p[j] != '.' then p[..dotIndex]
    else p
  }

  /** The root of `stem.ext` is `stem`, when the extension is one path-free, dot-free piece and
      the stem's last component has a character other than '.'. */
  lemma {:induction false} SplitExtRootDropsExtension(stem: string, ext: string, k: nat)
    requires '.' !in ext && '/' !in ext
    requires k < |stem| && stem[k] != '.' && '/' !in stem[k..]
    ensures SplitExtRoot(stem + "." + ext) == stem
  {
    var p := stem + "." + ext;
    var sepIndex := RFind(p, '/');
    var dotIndex := RFind(p, '.');
    assert p[|stem|] == '.';
    assert forall j :: |stem| < j < |p| ==> p[j] == ext[j - |stem| - 1];
    assert dotIndex == |stem|;
    assert forall j :: k <= j < |stem| ==> p[j] == stem[k..][j - k];
    assert sepIndex < k && p[k] == stem[k];
    assert p[..dotIndex] == stem;
  }

  /** A name with no '.' is its own root. */
  lemma {:induction false} SplitExtRootNoDot(p: string)
    requires '.' !in p
    ensures SplitExtRoot(p) == p
  {
    assert forall k :: 0 <= k < |p| ==> p[k] != '.';
  }
}
