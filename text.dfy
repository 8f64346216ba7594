/** The Python `str` operations the generator relies on, written over
    `seq<char>`, each with the contract the generator depends on. */
module Text {

  /** Python's `str.isspace()` restricted to the ASCII range: the characters
      `str.strip()` removes. */
  predicate IsSpace(c: char) {
    c == ' ' || c == '\t' || c == '\n' || c == '\r' || c == '\U{000B}' || c == '\U{000C}'
    || c == '\U{001C}' || c == '\U{001D}' || c == '\U{001E}' || c == '\U{001F}'
  }

  /** `s.lstrip()` */
  function LStrip(s: string): (r: string)
    ensures |r| <= |s|
    ensures r == [] || !IsSpace(r[0])
  {
    if s != [] && IsSpace(s[0]) then LStrip(s[1..]) else s
  }

  /** `s.rstrip()` */
  function RStrip(s: string): (r: string)
    ensures |r| <= |s|
    ensures r == [] || !IsSpace(r[|r| - 1])
  {
    if s != [] && IsSpace(s[|s| - 1]) then RStrip(s[..|s| - 1]) else s
  }

  /** `s.strip()`: the longest infix that neither starts nor ends with
      whitespace and is surrounded only by whitespace. */
  function Strip(s: string): (r: string)
    ensures |r| <= |s|
    ensures r == [] || (!IsSpace(r[0]) && !IsSpace(r[|r| - 1]))
  {
    RStripPrefix(LStrip(s));
    RStrip(LStrip(s))
  }

  /** `rstrip` keeps a prefix. */
  lemma {:induction false} RStripPrefix(s: string)
    ensures RStrip(s) == s[..|RStrip(s)|]
  {
    if s != [] && IsSpace(s[|s| - 1]) {
      RStripPrefix(s[..|s| - 1]);
    }
  }

  /** `s.find(c, start)`: the first index at or after `start` holding `c`,
      or -1 when there is none. */
  function FindFrom(s: string, c: char, start: nat): (r: int)
    ensures r == -1 || (start <= r < |s| && s[r] == c)
    decreases |s| - start
  {
    if start >= |s| then -1 else if s[start] == c then start else FindFrom(s, c, start + 1)
  }

  /** `find` returns the first occurrence, and -1 only when there is none. */
  lemma {:induction false} FindFromFirst(s: string, c: char, start: nat)
    ensures FindFrom(s, c, start) == -1 ==> forall i :: start <= i < |s| ==> s[i] != c
    ensures FindFrom(s, c, start) >= 0 ==> forall i :: start <= i < FindFrom(s, c, start) ==> s[i] != c
    decreases |s| - start
  {
    if start < |s| && s[start] != c {
      FindFromFirst(s, c, start + 1);
    }
  }

  /** The search lands on j when c first occurs at j. */
  lemma FindFromAt(s: string, c: char, start: nat, j: nat)
    requires start <= j < |s| && s[j] == c
    requires forall i :: start <= i < j ==> s[i] != c
    ensures FindFrom(s, c, start) == j
  {
    FindFromFirst(s, c, start);
  }

  /** The search fails when c does not occur from start on. */
  lemma FindFromAbsent(s: string, c: char, start: nat)
    requires forall i :: start <= i < |s| ==> s[i] != c
    ensures FindFrom(s, c, start) == -1
  {
  }

  /** `s.find(c)` */
  function Find(s: string, c: char): int {
    FindFrom(s, c, 0)
  }

  /** `sub` occurs in `s` starting at index i. */
  predicate OccursAt(s: string, sub: string, i: nat) {
    i + |sub| <= |s| && s[i..i + |sub|] == sub
  }

  /** `s.find(sub, start)` for a substring. */
  function FindSubFrom(s: string, sub: string, start: nat): (r: int)
    ensures r == -1 || (start <= r && OccursAt(s, sub, r))
    decreases |s| - start
  {
    if start + |sub| > |s| then -1
    else if s[start..start + |sub|] == sub then start
    else FindSubFrom(s, sub, start + 1)
  }

  /** `sub in s` */
  predicate Contains(s: string, sub: string) {
    FindSubFrom(s, sub, 0) >= 0
  }

  /** `s.startswith(p)` */
  predicate StartsWith(s: string, p: string) {
    |p| <= |s| && s[..|p|] == p
  }

  /** Python's slice `s[lo:hi]`, negative bounds counting from the end. */
  function Norm(i: int, n: nat): (k: nat)
    ensures k <= n
  {
    if i < 0 then (if i + n < 0 then 0 else i + n) else if i > n then n else i
  }

  function Slice(s: string, lo: int, hi: int): (r: string)
    ensures |r| <= |s|
  {
    var a := Norm(lo, |s|);
    var b := Norm(hi, |s|);
    if a < b then s[a..b] else []
  }

  /** `sep.join(parts)` */
  function Join(parts: seq<string>, sep: string): string {
    if parts == [] then [] else if |parts| == 1 then parts[0] else parts[0] + sep + Join(parts[1..], sep)
  }

  /** `s.split(sep)`: the pieces between the leftmost non-overlapping
      occurrences of `sep`; joining them with `sep` gives `s` back. */
  function Split(s: string, sep: string): (r: seq<string>)
    requires |sep| > 0
    ensures |r| >= 1
    ensures Join(r, sep) == s
    decreases |s|
  {
    var i := FindSubFrom(s, sep, 0);
    if i < 0 then [s]
    else
      assert s == s[..i] + sep + s[i + |sep|..];
      [s[..i]] + Split(s[i + |sep|..], sep)
  }

  /** `s.replace(pat, rep)`: replacing every occurrence is splitting on the
      pattern and joining with the replacement. */
  function Replace(s: string, pat: string, rep: string): string
    requires |pat| > 0
    decreases |s|
  {
    var i := FindSubFrom(s, pat, 0);
    if i < 0 then s else s[..i] + rep + Replace(s[i + |pat|..], pat, rep)
  }

  lemma {:induction false} ReplaceIsSplitJoin(s: string, pat: string, rep: string)
    requires |pat| > 0
    ensures Replace(s, pat, rep) == Join(Split(s, pat), rep)
    decreases |s|
  {
    var i := FindSubFrom(s, pat, 0);
    if i >= 0 {
      ReplaceIsSplitJoin(s[i + |pat|..], pat, rep);
    }
  }

  /** `str.lower()` on ASCII letters. */
  function LowerChar(c: char): char {
    if 'A' <= c <= 'Z' then (c as int + 32) as char else c
  }

  function Lower(s: string): (r: string)
    ensures |r| == |s|
  {
    seq(|s|, i requires 0 <= i < |s| => LowerChar(s[i]))
  }

  /** The decimal text of a natural number, as `str(n)` or `'%d' % n`. */
  function DigitChar(d: nat): char
    requires d < 10
  {
    "0123456789"[d]
  }

  predicate IsDigit(c: char) {
    '0' <= c <= '9'
  }

  predicate AllDigits(s: string) {
    forall i :: 0 <= i < |s| ==> IsDigit(s[i])
  }

  /** The value of a run of decimal digits, as Python's `int(s)`. */
  function DigitsValue(s: string): nat
    requires AllDigits(s)
  {
    if s == [] then 0 else DigitsValue(s[..|s| - 1]) * 10 + (s[|s| - 1] as int - '0' as int)
  }

  function NatToString(n: nat): (r: string)
    ensures |r| >= 1 && AllDigits(r)
    ensures DigitsValue(r) == n
    decreases n
  {
    if n < 10 then [DigitChar(n)]
    else
      var r := NatToString(n / 10) + [DigitChar(n % 10)];
      assert r[..|r| - 1] == NatToString(n / 10);
      r
  }

  function Zeros(k: nat): (r: string)
    ensures |r| == k && AllDigits(r) && DigitsValue(r) == 0
  {
    if k == 0 then [] else
      var r := Zeros(k - 1) + "0";
      assert r[..|r| - 1] == Zeros(k - 1);
      r
  }

  /** `'%0*d' % (width, n)`: the decimal text of n left-padded with zeros. */
  function Pad(n: nat, width: nat): string {
    var t := NatToString(n);
    if |t| < width then Zeros(width - |t|) + t else t
  }

  // ---- properties ----

  /** Leading zeros do not change the value of a digit run. */
  lemma {:induction false} DigitsValueZeros(k: nat, t: string)
    requires AllDigits(t)
    ensures AllDigits(Zeros(k) + t) && DigitsValue(Zeros(k) + t) == DigitsValue(t)
    decreases |t|
  {
    var z := Zeros(k) + t;
    if t == [] {
      assert z == Zeros(k);
    } else {
      assert z[..|z| - 1] == Zeros(k) + t[..|t| - 1];
      DigitsValueZeros(k, t[..|t| - 1]);
    }
  }

  /** Numbers below 10^width print in exactly `width` digits and read back. */
  lemma {:induction false} NatToStringLength(n: nat, width: nat)
    requires n < Power10(width)
    ensures |NatToString(n)| <= width || (n < 10 && width == 0)
    decreases n
  {
    if n >= 10 {
      assert width >= 1;
      NatToStringLength(n / 10, width - 1);
    }
  }

  function Power10(k: nat): (r: nat)
    ensures r >= 1
  {
    if k == 0 then 1 else 10 * Power10(k - 1)
  }

  /** A run of k digits is worth less than 10^k. */
  lemma {:induction false} DigitsValueBound(s: string)
    requires AllDigits(s)
    ensures DigitsValue(s) < Power10(|s|)
    decreases |s|
  {
    if s != [] {
      DigitsValueBound(s[..|s| - 1]);
    }
  }

  lemma PadFacts(n: nat, width: nat)
    requires width >= 1 && n < Power10(width)
    ensures |Pad(n, width)| == width && AllDigits(Pad(n, width))
    ensures DigitsValue(Pad(n, width)) == n
  {
    NatToStringLength(n, width);
    var t := NatToString(n);
    if |t| < width { DigitsValueZeros(width - |t|, t); }
  }

  /** Joining with a separator char that occurs in no part and splitting on it
      again gives the parts back. */
  lemma {:induction false} SplitJoin(parts: seq<string>, c: char)
    requires |parts| >= 1
    requires forall k :: 0 <= k < |parts| ==> c !in parts[k]
    ensures Split(Join(parts, [c]), [c]) == parts
    decreases |parts|
  {
    var s := Join(parts, [c]);
    if |parts| == 1 {
      NoSubWithoutChar(s, c);
    } else {
      var p := parts[0];
      assert s == p + [c] + Join(parts[1..], [c]);
      FindSubAtChar(p, c, Join(parts[1..], [c]));
      assert s[|p| + 1..] == Join(parts[1..], [c]);
      assert s[..|p|] == p;
      SplitJoin(parts[1..], c);
    }
  }

  /** For a one-character pattern, the substring search is the char search. */
  lemma {:induction false} FindSubChar(s: string, c: char, start: nat)
    ensures FindSubFrom(s, [c], start) == FindFrom(s, c, start)
    decreases |s| - start
  {
    if start + 1 <= |s| {
      assert (s[start..start + 1] == [c]) == (s[start] == c);
      FindSubChar(s, c, start + 1);
    }
  }

  lemma NoSubWithoutChar(s: string, c: char)
    requires c !in s
    ensures FindSubFrom(s, [c], 0) == -1
  {
    FindSubChar(s, c, 0);
  }

  lemma FindSubAtChar(p: string, c: char, t: string)
    requires c !in p
    ensures FindSubFrom(p + [c] + t, [c], 0) == |p|
  {
    var s := p + [c] + t;
    FindSubChar(s, c, 0);
    assert forall i :: 0 <= i < |p| ==> s[i] == p[i];
    FindFromAt(s, c, 0, |p|);
  }

  /** Splitting on a one-character separator yields more than one piece
      exactly when the character occurs. */
  lemma SplitMany(s: string, c: char)
    ensures |Split(s, [c])| > 1 <==> c in s
  {
    FindSubChar(s, c, 0);
    FindFromFirst(s, c, 0);
    var i := FindFrom(s, c, 0);
    if i >= 0 {
      assert s[i] == c;
      var rest := Split(s[i + 1..], [c]);
      assert Split(s, [c]) == [s[..i]] + rest;
    } else {
      assert Split(s, [c]) == [s];
    }
  }

  /** With a separator char absent from the text, the first piece is the
      whole text. */
  lemma SplitNoChar(s: string, c: char)
    requires c !in s
    ensures Split(s, [c]) == [s]
  {
    NoSubWithoutChar(s, c);
  }

  /** The first piece of a split on a char is what precedes its first
      occurrence. */
  lemma SplitFirst(p: string, c: char, t: string)
    requires c !in p
    ensures Split(p + [c] + t, [c])[0] == p
  {
    FindSubAtChar(p, c, t);
    var s := p + [c] + t;
    assert s[..|p|] == p;
  }

  /** Searching from the start of the second part of a concatenation. */
  lemma {:induction false} FindFromShift(a: string, b: string, c: char, k: nat)
    ensures FindFrom(a + b, c, |a| + k) == (if FindFrom(b, c, k) == -1 then -1 else |a| + FindFrom(b, c, k))
    decreases |b| - k
  {
    if k < |b| {
      assert (a + b)[|a| + k] == b[k];
      if b[k] != c {
        FindFromShift(a, b, c, k + 1);
      }
    }
  }

  /** Positions without c before j do not change where the search lands. */
  lemma {:induction false} FindFromSkip(s: string, c: char, start: nat, j: nat)
    requires start <= j <= |s|
    requires forall i :: start <= i < j ==> s[i] != c
    ensures FindFrom(s, c, start) == FindFrom(s, c, j)
    decreases j - start
  {
    if start < j {
      FindFromSkip(s, c, start + 1, j);
    }
  }

  /** `(a + b).find(c)` when c does not occur in a. */
  lemma FindConcat(a: string, b: string, c: char)
    requires c !in a
    ensures Find(a + b, c) == (if Find(b, c) == -1 then -1 else |a| + Find(b, c))
  {
    forall i | 0 <= i < |a| ensures (a + b)[i] != c {
      assert (a + b)[i] == a[i];
    }
    FindFromSkip(a + b, c, 0, |a|);
    FindFromShift(a, b, c, 0);
  }

  /** `strip` leaves a text alone that neither starts nor ends with whitespace. */
  lemma StripClean(s: string)
    requires s == [] || (!IsSpace(s[0]) && !IsSpace(s[|s| - 1]))
    ensures Strip(s) == s
  {
  }

  /** `lstrip` keeps a suffix. */
  lemma {:induction false} LStripSuffix(s: string)
    ensures LStrip(s) == s[|s| - |LStrip(s)|..]
    decreases |s|
  {
    if s != [] && IsSpace(s[0]) {
      LStripSuffix(s[1..]);
    }
  }

  /** `strip` adds no character: one absent from the text is absent from
      its stripped form. */
  lemma StripKeeps(s: string, c: char)
    requires c !in s
    ensures c !in Strip(s)
  {
    LStripSuffix(s);
    RStripPrefix(LStrip(s));
    var l := LStrip(s);
    assert forall i :: 0 <= i < |l| ==> l[i] == s[|s| - |l| + i];
  }

  /** No piece of a split on a char holds that char. */
  lemma {:induction false} SplitPartsFree(s: string, c: char)
    ensures forall k :: 0 <= k < |Split(s, [c])| ==> c !in Split(s, [c])[k]
    decreases |s|
  {
    FindSubChar(s, c, 0);
    FindFromFirst(s, c, 0);
    var i := FindSubFrom(s, [c], 0);
    if i >= 0 {
      SplitPartsFree(s[i + 1..], c);
      assert Split(s, [c]) == [s[..i]] + Split(s[i + 1..], [c]);
      assert c !in s[..i];
    }
  }

  /** `strip` drops one leading blank. */
  lemma StripBlank(s: string)
    requires s == [] || (!IsSpace(s[0]) && !IsSpace(s[|s| - 1]))
    ensures Strip(" " + s) == s
  {
    assert (" " + s)[1..] == s;
    assert LStrip(" " + s) == LStrip(s) == s;
    assert RStrip(s) == s;
  }

  /** Slicing the parts back out of a concatenation. */
  lemma SliceParts(a: string, b: string, c: string)
    ensures (a + b + c)[|a|..|a| + |b|] == b
    ensures (a + b + c)[|a| + |b|..] == c
    ensures (a + b + c)[..|a|] == a
  {
  }

  /** Digit runs of one length are equal when their values are. */
  lemma {:induction false} DigitsInjective(s: string, t: string)
    requires AllDigits(s) && AllDigits(t) && |s| == |t| && DigitsValue(s) == DigitsValue(t)
    ensures s == t
    decreases |s|
  {
    if s != [] {
      var a, b := s[..|s| - 1], t[..|t| - 1];
      assert DigitsValue(s) % 10 == s[|s| - 1] as int - '0' as int;
      assert DigitsValue(t) % 10 == t[|t| - 1] as int - '0' as int;
      DigitsInjective(a, b);
      assert s == a + [s[|s| - 1]] && t == b + [t[|t| - 1]];
    }
  }

  /** `'%0*d' % (width, n)` of a number written with `width` digits is that
      text. */
  lemma PadIs(t: string, width: nat)
    requires width >= 1 && |t| == width && AllDigits(t)
    ensures Pad(DigitsValue(t), width) == t
  {
    DigitsValueBound(t);
    PadFacts(DigitsValue(t), width);
    DigitsInjective(Pad(DigitsValue(t), width), t);
  }

  /** The value of a run extended by one digit. */
  lemma DigitsValueSnoc(s: string, c: char)
    requires AllDigits(s) && IsDigit(c)
    ensures AllDigits(s + [c]) && DigitsValue(s + [c]) == DigitsValue(s) * 10 + (c as int - '0' as int)
  {
    assert (s + [c])[..|s|] == s;
  }
}
