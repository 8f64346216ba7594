/** `Mapper._get_data_divs`: a (non-empty, stripped) value is cut into its
    divisions at every '#' that is not escaped by a '\' directly before it;
    the escaping '\' is removed. An unsectioned location takes the value as
    its only division. */
module Divisions {
  import opened Text

  // ---------------------------------------------------------------------
  // Specification, one character at a time
  // ---------------------------------------------------------------------

  /** The first division of a remainder, what follows its closing '#', and
      whether such a '#' was found. `\#` stands for a kept '#'. */
  function FirstDiv(r: string): (d: (string, string, bool))
    ensures |d.1| <= |r| && (r != [] ==> |d.1| < |r|)
    ensures !d.2 ==> d.1 == []
    decreases |r|
  {
    if r == [] then ([], [], false)
    else if r[0] == '#' then ([], r[1..], true)
    else if r[0] == '\\' && |r| >= 2 && r[1] == '#' then
      var t := FirstDiv(r[2..]);
      ("#" + t.0, t.1, t.2)
    else
      var t := FirstDiv(r[1..]);
      ([r[0]] + t.0, t.1, t.2)
  }

  /** The remainder on which the source's escape loop never ends: it holds
      a '#' at index 0, whose "preceding" character `data[-1]` is the last
      one, a '\'; removing `data[:-1]`'s '\' then regrows the text. */
  predicate Loops(r: string) {
    |r| > 0 && r[0] == '#' && r[|r| - 1] == '\\'
  }

  /** No remainder met while cutting `r` makes the escape loop run forever. */
  predicate DivsDefined(r: string)
    decreases |r|
  {
    r == [] || (!Loops(r) && DivsDefined(FirstDiv(r).1))
  }

  /** The divisions of a sectioned value. */
  function SplitDivs(r: string): seq<string>
    decreases |r|
  {
    if r == [] then [] else [FirstDiv(r).0] + SplitDivs(FirstDiv(r).1)
  }

  /** `_get_data_divs(data, has_sectioned_data)` */
  function DataDivs(data: string, sectioned: bool): seq<string>
    requires sectioned ==> DivsDefined(data)
  {
    if sectioned then SplitDivs(data) else [data]
  }

  // ---------------------------------------------------------------------
  // The source's loops
  // ---------------------------------------------------------------------

  /** One division's first character run, before its first '#'. */
  function Shift(pre: string, d: (string, string, bool)): (string, string, bool) {
    (pre + d.0, d.1, d.2)
  }

  /** The outer loop cuts one division per pass; the inner loop drops the
      '\' before each escaped '#', searching on past it. */
  method GetDataDivs(data0: string, sectioned: bool) returns (divs: seq<string>)
    requires sectioned ==> DivsDefined(data0)
    ensures divs == DataDivs(data0, sectioned)
  {
    if !sectioned {
      return [data0];
    }
    divs := [];
    var data := data0;
    while |data| > 0
      invariant DivsDefined(data)
      invariant divs + SplitDivs(data) == SplitDivs(data0)
      decreases |data|
    {
      ghost var r := data;
      var ind;
      ghost var k;
      data, k, ind := DropEscapes(data);
      SplitDivsStep(r);
      if ind == -1 {
        NoSplitAt(data, k);
        CutOne(divs, r, data, []);
        divs := divs + [data];
        data := [];
      } else {
        SplitAt(data, k, ind);
        CutOne(divs, r, data[..ind], data[ind + 1..]);
        divs := divs + [data[..ind]];
        data := data[ind + 1..];
      }
    }
  }

  /** The inner loop of `_get_data_divs`: each '#' preceded by a '\' loses
      the '\' and the search goes on past it, until a '#' without one
      (at `ind`) or none is left. The first division of what follows `k`,
      after `data[..k]`, is the first division of the text given. */
  method DropEscapes(r: string) returns (data: string, ghost k: nat, ind: int)
    requires r != [] && !Loops(r)
    ensures k <= |data| && (k == 0 ==> data == r) && (k > 0 ==> data[k - 1] == '#')
    ensures Shift(data[..k], FirstDiv(data[k..])) == FirstDiv(r)
    ensures ind == -1 ==> '#' !in data[k..]
    ensures ind != -1 ==> k <= ind < |data| && data[ind] == '#' && '#' !in data[k..ind]
    ensures ind != -1 ==> data[if ind == 0 then |data| - 1 else ind - 1] != '\\'
  {
    data := r;
    ind := Find(data, '#');
    FindFromFirst(data, '#', 0);
    k := 0;
    assert Shift(data[..k], FirstDiv(data[k..])) == FirstDiv(r) by {
      assert data[..0] == [] && data[0..] == data;
      assert [] + FirstDiv(data).0 == FirstDiv(data).0;
    }
    while ind != -1 && data[if ind == 0 then |data| - 1 else ind - 1] == '\\'
      invariant k <= |data| && (k == 0 ==> data == r) && (k > 0 ==> data[k - 1] == '#')
      invariant Shift(data[..k], FirstDiv(data[k..])) == FirstDiv(r)
      invariant ind == -1 ==> '#' !in data[k..]
      invariant ind != -1 ==> k <= ind < |data| && data[ind] == '#' && '#' !in data[k..ind]
      decreases |data|
    {
      assert ind != 0;
      EscapeStep(data, k, ind);
      data := data[..ind - 1] + data[ind..];
      k := ind;
      ind := FindFrom(data, '#', ind);
      FindFromFirst(data, '#', k);
      NoCharFrom(data, k, ind);
    }
  }

  /** Cutting the first division off `r` moves it to the divisions found. */
  lemma CutOne(before: seq<string>, r: string, piece: string, rest: string)
    requires r != [] && FirstDiv(r).0 == piece && FirstDiv(r).1 == rest
    ensures (before + [piece]) + SplitDivs(rest) == before + SplitDivs(r)
  {
    SplitDivsStep(r);
  }

  lemma SplitDivsStep(r: string)
    requires r != []
    ensures SplitDivs(r) == [FirstDiv(r).0] + SplitDivs(FirstDiv(r).1)
    ensures DivsDefined(r) ==> DivsDefined(FirstDiv(r).1)
  {
  }

  /** The inner loop's removal of a '\' before the '#' at `ind` keeps the
      first division as it was. */
  lemma EscapeStep(data: string, k: nat, ind: nat)
    requires 1 <= ind < |data| && k <= ind && data[ind] == '#' && data[ind - 1] == '\\'
    requires '#' !in data[k..ind] && (k > 0 ==> data[k - 1] == '#')
    ensures Shift(data[..k], FirstDiv(data[k..])) ==
              Shift((data[..ind - 1] + data[ind..])[..ind], FirstDiv((data[..ind - 1] + data[ind..])[ind..]))
  {
    var pre, z, y := data[..k], data[k..ind - 1], data[ind + 1..];
    EscapeCuts(data, k, ind);
    assert '#' !in z;
    PlainThenEscape(z, y);
    var d := FirstDiv(y);
    RegroupDiv(pre, z, d.0);
  }

  /** The pieces of `data` around the `\#` at `ind - 1`, before and after
      the '\' is dropped. */
  lemma EscapeCuts(data: string, k: nat, ind: nat)
    requires 1 <= ind < |data| && k < ind && data[ind] == '#' && data[ind - 1] == '\\'
    ensures data[k..] == data[k..ind - 1] + "\\#" + data[ind + 1..]
    ensures (data[..ind - 1] + data[ind..])[..ind] == data[..k] + data[k..ind - 1] + "#"
    ensures (data[..ind - 1] + data[ind..])[ind..] == data[ind + 1..]
  {
    var nd := data[..ind - 1] + data[ind..];
    assert data[k..] == data[k..ind - 1] + data[ind - 1..ind + 1] + data[ind + 1..];
    assert nd[..ind] == data[..ind - 1] + [data[ind]];
    assert data[..ind - 1] == data[..k] + data[k..ind - 1];
  }

  lemma RegroupDiv(pre: string, z: string, d: string)
    ensures pre + (z + "#" + d) == (pre + z) + "#" + d
  {
  }

  /** Characters without '#' followed by `\#` are kept, then the '#'. */
  lemma {:induction false} PlainThenEscape(z: string, y: string)
    requires '#' !in z
    ensures FirstDiv(z + "\\#" + y) == Shift(z + "#", FirstDiv(y))
    decreases |z|
  {
    var s := z + "\\#" + y;
    if z == [] {
      assert s == "\\#" + y && s[2..] == y;
      assert [] + "#" == "#";
    } else {
      assert s[0] == z[0] && s[1..] == z[1..] + "\\#" + y;
      if z[0] == '\\' {
        assert s[1] == (if |z| > 1 then z[1] else '\\');
      }
      PlainThenEscape(z[1..], y);
      var d := FirstDiv(y).0;
      assert [z[0]] + (z[1..] + "#" + d) == z + "#" + d;
    }
  }

  /** Characters without '#' and not ending in '\' followed by '#' end the
      division. */
  lemma {:induction false} PlainThenSplit(z: string, y: string)
    requires '#' !in z && (z == [] || z[|z| - 1] != '\\')
    ensures FirstDiv(z + "#" + y) == (z, y, true)
    decreases |z|
  {
    var s := z + "#" + y;
    if z == [] {
      assert s[1..] == y;
    } else {
      assert s[0] == z[0] && s[1..] == z[1..] + "#" + y;
      if z[0] == '\\' {
        assert |z| > 1;
        assert s[1] == z[1];
      }
      PlainThenSplit(z[1..], y);
      assert [z[0]] + z[1..] == z;
    }
  }

  /** A remainder without '#' is one whole division. */
  lemma {:induction false} NoSplit(z: string)
    requires '#' !in z
    ensures FirstDiv(z) == (z, [], false)
    decreases |z|
  {
    if z != [] {
      if z[0] == '\\' && |z| >= 2 {
        assert z[1] == z[1..][0];
      }
      NoSplit(z[1..]);
      assert [z[0]] + z[1..] == z;
    }
  }

  lemma NoCharFrom(data: string, k: nat, ind: int)
    requires k <= |data|
    requires ind == FindFrom(data, '#', k)
    requires forall i :: k <= i < |data| && (ind == -1 || i < ind) ==> data[i] != '#'
    ensures ind == -1 ==> '#' !in data[k..]
    ensures ind != -1 ==> k <= ind < |data| && data[ind] == '#' && '#' !in data[k..ind]
  {
  }

  lemma NoSplitAt(data: string, k: nat)
    requires k <= |data| && '#' !in data[k..]
    ensures Shift(data[..k], FirstDiv(data[k..])) == (data, [], false)
  {
    NoSplit(data[k..]);
    assert data[..k] + data[k..] == data;
  }

  lemma SplitAt(data: string, k: nat, ind: nat)
    requires k <= ind < |data| && data[ind] == '#' && '#' !in data[k..ind]
    requires ind == 0 ==> data[|data| - 1] != '\\'
    requires ind > 0 ==> data[ind - 1] != '\\'
    ensures Shift(data[..k], FirstDiv(data[k..])) == (data[..ind], data[ind + 1..], true)
  {
    var z := data[k..ind];
    assert data[k..] == z + "#" + data[ind + 1..];
    if z != [] {
      assert z[|z| - 1] == data[ind - 1];
    }
    PlainThenSplit(z, data[ind + 1..]);
    assert data[..k] + z == data[..ind];
  }

  // ---------------------------------------------------------------------
  // Properties
  // ---------------------------------------------------------------------

  /** The text with every `\#` read as '#'. */
  function Unescape(s: string): string
    decreases |s|
  {
    if s == [] then []
    else if |s| >= 2 && s[0] == '\\' && s[1] == '#' then "#" + Unescape(s[2..])
    else [s[0]] + Unescape(s[1..])
  }

  /** What follows a division is a suffix of the remainder. */
  lemma {:induction false} RestIsSuffix(r: string)
    ensures FirstDiv(r).1 == r[|r| - |FirstDiv(r).1|..]
    decreases |r|
  {
    if r != [] && r[0] != '#' {
      if r[0] == '\\' && |r| >= 2 && r[1] == '#' {
        RestIsSuffix(r[2..]);
      } else {
        RestIsSuffix(r[1..]);
      }
    }
  }

  /** A value not ending in '\' never makes the escape loop run forever:
      every remainder ends with the value's own last character. */
  lemma {:induction false} DefinedWithoutTrailingEscape(r: string)
    requires r == [] || r[|r| - 1] != '\\'
    ensures DivsDefined(r)
    decreases |r|
  {
    if r != [] {
      var rest := FirstDiv(r).1;
      RestIsSuffix(r);
      if rest != [] {
        assert rest[|rest| - 1] == r[|r| - 1];
      }
      DefinedWithoutTrailingEscape(rest);
    }
  }

  /** Each division, the '#' that closes it, and the divisions after it
      make up the unescaped remainder. */
  lemma {:induction false} FirstDivUnescape(r: string)
    ensures Unescape(r) == Rejoined(FirstDiv(r))
    decreases |r|
  {
    if r != [] {
      if r[0] == '#' {
        assert Unescape(r) == "#" + Unescape(r[1..]);
        assert [] + "#" + Unescape(r[1..]) == "#" + Unescape(r[1..]);
      } else if r[0] == '\\' && |r| >= 2 && r[1] == '#' {
        var t := FirstDiv(r[2..]);
        FirstDivUnescape(r[2..]);
        assert Unescape(r) == "#" + Rejoined(t);
        RejoinedCons("#", t);
      } else {
        var t := FirstDiv(r[1..]);
        FirstDivUnescape(r[1..]);
        assert Unescape(r) == [r[0]] + Rejoined(t);
        RejoinedCons([r[0]], t);
      }
    }
  }

  /** A division, rejoined with its closing '#' and what follows, read. */
  function Rejoined(d: (string, string, bool)): string {
    if d.2 then d.0 + "#" + Unescape(d.1) else d.0
  }

  lemma RejoinedCons(p: string, d: (string, string, bool))
    ensures Rejoined((p + d.0, d.1, d.2)) == p + Rejoined(d)
  {
    if d.2 {
      assert (p + d.0) + "#" + Unescape(d.1) == p + (d.0 + "#" + Unescape(d.1));
    }
  }

  /** A closing '#' with nothing after it is the remainder's last character. */
  lemma {:induction false} EmptyRestEndsWithSplit(r: string)
    requires FirstDiv(r).2 && FirstDiv(r).1 == []
    ensures r != [] && r[|r| - 1] == '#'
    decreases |r|
  {
    if r[0] == '#' {
      assert r[1..] == [];
    } else if r[0] == '\\' && |r| >= 2 && r[1] == '#' {
      EmptyRestEndsWithSplit(r[2..]);
    } else {
      EmptyRestEndsWithSplit(r[1..]);
    }
  }

  /** Rejoining the divisions of a value that does not end in '#' gives the
      value with its escapes read. */
  lemma {:induction false} JoinDivs(r: string)
    requires r == [] || r[|r| - 1] != '#'
    ensures Join(SplitDivs(r), "#") == Unescape(r)
    decreases |r|
  {
    if r != [] {
      var d := FirstDiv(r);
      FirstDivUnescape(r);
      RestIsSuffix(r);
      if d.2 {
        if d.1 == [] {
          EmptyRestEndsWithSplit(r);
        }
        assert d.1[|d.1| - 1] == r[|r| - 1];
        JoinDivs(d.1);
        assert SplitDivs(d.1) != [];
      }
    }
  }

  /** Reading the escapes is `replace('\\#', '#')`. */
  lemma {:induction false} UnescapeReplace(s: string)
    ensures Unescape(s) == Replace(s, "\\#", "#")
    decreases |s|
  {
    if s != [] {
      if |s| >= 2 && s[0] == '\\' && s[1] == '#' {
        assert s[0..2] == "\\#";
        UnescapeReplace(s[2..]);
      } else {
        ReplaceStep(s, "\\#", "#");
        UnescapeReplace(s[1..]);
      }
    }
  }

  /** Where the pattern does not start the text, `replace` keeps the first
      character. */
  lemma ReplaceStep(s: string, pat: string, rep: string)
    requires s != [] && |pat| > 0 && !OccursAt(s, pat, 0)
    ensures Replace(s, pat, rep) == [s[0]] + Replace(s[1..], pat, rep)
  {
    FindSubShift(s[0], s[1..], pat, 0);
    assert [s[0]] + s[1..] == s;
    var j := FindSubFrom(s[1..], pat, 0);
    assert FindSubFrom(s, pat, 0) == FindSubFrom(s, pat, 1);
    if j >= 0 {
      ReplaceFound(s, pat, rep, j);
    }
  }

  lemma ReplaceFound(s: string, pat: string, rep: string, j: nat)
    requires s != [] && |pat| > 0
    requires FindSubFrom(s, pat, 0) == 1 + j && FindSubFrom(s[1..], pat, 0) == j
    ensures Replace(s, pat, rep) == [s[0]] + Replace(s[1..], pat, rep)
  {
    var t := s[1..];
    assert 1 + j + |pat| <= |s|;
    AfterHead(s, j, |pat|);
    var tail := t[j + |pat|..];
    var more := rep + Replace(tail, pat, rep);
    ReplaceAt(s, pat, rep, 1 + j, tail, more);
    ReplaceAt(t, pat, rep, j, tail, more);
    ConsAppend(s[0], t[..j], more);
  }

  /** One unfolding of `replace` at the first occurrence `i`, with `more`
      standing for the replacement and what follows it. */
  lemma ReplaceAt(s: string, pat: string, rep: string, i: nat, tail: string, more: string)
    requires |pat| > 0 && FindSubFrom(s, pat, 0) == i
    requires i + |pat| <= |s| && s[i + |pat|..] == tail && more == rep + Replace(tail, pat, rep)
    ensures Replace(s, pat, rep) == s[..i] + more
  {
  }

  /** Cutting after the first character, then at `j` or `j + p`. */
  lemma AfterHead(s: string, j: nat, p: nat)
    requires 1 + j + p <= |s|
    ensures s[..1 + j] == [s[0]] + s[1..][..j]
    ensures s[1 + j + p..] == s[1..][j + p..]
  {
  }

  lemma ConsAppend(c: char, a: string, b: string)
    ensures ([c] + a) + b == [c] + (a + b)
  {
  }

  /** Searching after a leading character. */
  lemma {:induction false} FindSubShift(c: char, t: string, sub: string, k: nat)
    requires |sub| > 0
    ensures FindSubFrom([c] + t, sub, k + 1) ==
              (if FindSubFrom(t, sub, k) == -1 then -1 else 1 + FindSubFrom(t, sub, k))
    decreases |t| - k
  {
    if k + |sub| <= |t| {
      assert ([c] + t)[k + 1..k + 1 + |sub|] == t[k..k + |sub|];
      FindSubShift(c, t, sub, k + 1);
    }
  }

  /** For a value that neither starts nor ends with '#' and does not end in
      '\', rejoining the divisions with '#' gives the value with every `\#`
      replaced by '#'. */
  lemma DivsRejoin(data: string)
    requires data != [] && data[0] != '#' && data[|data| - 1] != '#' && data[|data| - 1] != '\\'
    ensures DivsDefined(data)
    ensures Join(DataDivs(data, true), "#") == Replace(data, "\\#", "#")
  {
    DefinedWithoutTrailingEscape(data);
    JoinDivs(data);
    UnescapeReplace(data);
  }

  /** Appending a '#' to a value that does not end in '\' adds one cut at
      its end. */
  lemma {:induction false} FirstDivHash(s: string)
    requires s == [] || s[|s| - 1] != '\\'
    ensures FirstDiv(s + "#") ==
              (if FirstDiv(s).2 then (FirstDiv(s).0, FirstDiv(s).1 + "#", true) else (FirstDiv(s).0, [], true))
    decreases |s|
  {
    var t := s + "#";
    if s != [] {
      assert t[0] == s[0];
      if s[0] == '#' {
        assert t[1..] == s[1..] + "#";
      } else if s[0] == '\\' && |s| >= 2 && s[1] == '#' {
        assert t[1] == '#' && t[2..] == s[2..] + "#";
        FirstDivHash(s[2..]);
      } else {
        if s[0] == '\\' {
          assert |s| >= 2 && t[1] == s[1];
        }
        assert t[1..] == s[1..] + "#";
        FirstDivHash(s[1..]);
      }
    }
  }

  /** A trailing '#' yields no empty division. */
  lemma {:induction false} TrailingCut(s: string)
    requires s != [] && s[|s| - 1] != '#' && s[|s| - 1] != '\\'
    ensures SplitDivs(s + "#") == SplitDivs(s)
    decreases |s|
  {
    var d := FirstDiv(s);
    FirstDivHash(s);
    if d.2 {
      RestIsSuffix(s);
      if d.1 == [] {
        EmptyRestEndsWithSplit(s);
      }
      assert d.1[|d.1| - 1] == s[|s| - 1];
      TrailingCut(d.1);
    }
  }

  /** `part\#1#part2#part\#3` has the divisions "part#1", "part2", "part#3". */
  lemma EscapeExample(data: string)
    requires data == "part\\#1" + "#" + "part2" + "#" + "part\\#3"
    ensures DivsDefined(data) && DataDivs(data, true) == ["part#1", "part2", "part#3"]
  {
    var t3 := "part" + "\\#" + "3";
    var t2 := "part2" + "#" + t3;
    var t1 := "1" + "#" + t2;
    assert data == "part" + "\\#" + t1;
    NoSplit("3");
    PlainThenEscape("part", "3");
    assert "part" + "#" + "3" == "part#3";
    assert FirstDiv(t3) == ("part#3", [], false);
    PlainThenSplit("part2", t3);
    PlainThenSplit("1", t2);
    PlainThenEscape("part", t1);
    assert "part" + "#" + "1" == "part#1";
    assert FirstDiv(data) == ("part#1", t2, true);
    SplitDivsStep(data);
    SplitDivsStep(t2);
    SplitDivsStep(t3);
    assert SplitDivs([]) == [];
    DefinedWithoutTrailingEscape(data);
  }

  // ---------------------------------------------------------------------
  // A '#' at index 0 after a text ending in '\'
  // ---------------------------------------------------------------------

  /** The inner loop's test as the source writes it: `data[ind-1]`, where
      Python reads index -1 as the last character. */
  predicate EscapedAsWritten(data: string, ind: int) {
    0 <= ind < |data| && data[if ind == 0 then |data| - 1 else ind - 1] == '\\'
  }

  /** One pass of the inner loop as written, `data[:ind-1] + data[ind:]`,
      where the slice `data[:-1]` drops the last character. */
  function DropAsWritten(data: string, ind: nat): string
    requires ind < |data|
  {
    (if ind == 0 then data[..|data| - 1] else data[..ind - 1]) + data[ind..]
  }

  /** On a text that `Loops`, the source's inner loop finds the '#' at
      index 0, takes it for escaped, and its pass gives a longer text that
      `Loops` again, on which the search from 0 lands at 0 again: the loop
      never ends. */
  lemma EscapeLoopNeverEnds(data: string)
    requires Loops(data)
    ensures Find(data, '#') == 0 && EscapedAsWritten(data, 0)
    ensures Loops(DropAsWritten(data, 0)) && |DropAsWritten(data, 0)| > |data|
    ensures FindFrom(DropAsWritten(data, 0), '#', 0) == 0
  {
    assert |data| >= 2;
    var next := DropAsWritten(data, 0);
    assert next == data[..|data| - 1] + data;
    assert next[0] == data[0] && next[|next| - 1] == data[|data| - 1];
  }

  /** `#\` is such a text: the source never returns on it, while read as
      intended (a '#' with nothing before it is a cut) it has the
      divisions "" and `\`. */
  lemma HangExample(data: string)
    requires data == "#" + "\\"
    ensures Loops(data) && !DivsDefined(data)
    ensures SplitDivs(data) == [[], "\\"]
  {
    assert FirstDiv(data) == ([], data[1..], true);
    assert data[1..] == "\\";
    NoSplit("\\");
    assert SplitDivs("\\") == ["\\"] + SplitDivs([]);
  }

  /** Read as intended, every value not ending in '#' rejoins to itself
      with `\#` replaced by '#', whatever it ends or starts with. */
  lemma IntendedRejoin(data: string)
    requires data == [] || data[|data| - 1] != '#'
    ensures Join(SplitDivs(data), "#") == Replace(data, "\\#", "#")
  {
    JoinDivs(data);
    UnescapeReplace(data);
  }

}
