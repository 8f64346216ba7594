/** The location-expression parser (`LocationParser`): a header cell such as
    `<mods:name type="personal"><mods:namePart>#<mods:role><mods:roleTerm type="text">winner`
    names a base element and a list of `#`-separated sections of elements,
    each element optionally carrying a literal text. Both copies of the
    generator share this parser unchanged. */
module Location {
  import opened Common
  import opened Text

  type Attributes = map<string, string>

  /** One parsed tag: `{'element': name, 'attributes': ..., 'data': literal}`. */
  datatype Element = Element(name: string, attributes: Attributes, literal: Option<string>)

  /** A parsed location: the base element, the non-empty sections, and
      `has_sectioned_data`. */
  datatype Path = Path(base: Element, sections: seq<seq<Element>>, sectioned: bool)

  // ---------------------------------------------------------------------
  // Specification: the parser as functions
  // ---------------------------------------------------------------------

  /** One pass of `_parse_attributes`'s loop body: the key before the first
      '=', the value between the next two '"', and the text after it. */
  datatype AttributeCut = BadAttribute | Attribute(key: string, value: string, rest: string)

  function FirstAttribute(data: string): (c: AttributeCut)
    ensures c.Attribute? ==> |c.rest| < |data|
  {
    var equal := Find(data, '=');
    var valStart := FindFrom(data, '"', (equal + 1) as nat);
    var valEnd := FindFrom(data, '"', (valStart + 1) as nat);
    if valEnd > valStart then
      Attribute(Strip(Slice(data, 0, equal)), data[valStart + 1..valEnd], Strip(data[valEnd + 1..]))
    else
      BadAttribute
  }

  /** The rest of `_parse_attributes`'s loop, from the remaining text and the
      attributes gathered so far; a repeated key overwrites the earlier one. */
  function AttributesFrom(data: string, acc: Attributes): (r: Result<Attributes>)
    ensures r.Failure? ==> r.error == MalformedAttributes
    decreases |data|
  {
    if |data| == 0 then Success(acc)
    else
      match FirstAttribute(data)
      case Attribute(key, value, rest) => AttributesFrom(rest, acc[key := value])
      case BadAttribute => Failure(MalformedAttributes)
  }

  function ParseAttributes(data: string): Result<Attributes> {
    AttributesFrom(Strip(data), map[])
  }

  /** The name and attributes of one tag's text `<name k="v" ...>`. */
  function ParseTag(tag: string): (r: Result<(string, Attributes)>)
    ensures r.Success? && r.value.0 != [] ==> |tag| >= 2 && r.value.0[0] == tag[1]
    ensures r.Failure? ==> r.error == MalformedAttributes
  {
    var space := Find(tag, ' ');
    if space > 0 then
      var attributes :- ParseAttributes(Slice(tag, space, -1));
      Success((tag[1..space], attributes))
    else
      Success((Slice(tag, 1, -1), map[]))
  }

  /** The first tag of a text, found as the source finds it: from the first
      '<' to the first '>', provided the '>' comes later; and the text after
      that '>'. */
  datatype TagCut = NoTag | Cut(tag: string, rest: string)

  function FirstTag(s: string): (c: TagCut)
    ensures c.Cut? ==> |c.rest| < |s|
    ensures c.Cut? && |c.tag| >= 2 ==> c.tag[0] == '<'
  {
    var startTagPos := Find(s, '<');
    var endTagPos := Find(s, '>');
    if endTagPos > startTagPos then
      SliceHead(s, startTagPos, endTagPos + 1);
      Cut(Slice(s, startTagPos, endTagPos + 1), s[endTagPos + 1..])
    else
      NoTag
  }

  /** A slice from `-1` has at most one character; from a valid start, it
      begins with the character there. */
  lemma SliceHead(s: string, lo: int, hi: int)
    requires -1 <= lo < hi <= |s|
    ensures |Slice(s, lo, hi)| >= 2 ==> lo >= 0 && Slice(s, lo, hi)[0] == s[lo]
  {
    if lo >= 0 {
      assert Slice(s, lo, hi) == s[lo..hi];
    }
  }

  /** `_parse_base_element`: the first tag and the text after it. */
  function ParseBaseElement(data: string): Result<(Element, string)> {
    match FirstTag(data)
    case NoTag => Failure(UnclosedTag)
    case Cut(tag, rest) =>
      var t :- ParseTag(tag);
      Success((Element(t.0, t.1, None), rest))
  }

  /** The text up to the next '<' after a tag, None when there is none, and
      what remains of the section. */
  function LeadingText(section: string): (r: (Option<string>, string))
    ensures |r.1| <= |section|
    ensures r.0.Some? ==> r.0.value != [] && '<' !in r.0.value
    ensures r.1 == [] || r.1[0] == '<'
  {
    if |section| == 0 then (None, section)
    else
      var next := Find(section, '<');
      FindFromFirst(section, '<', 0);
      if next == 0 then (None, section)
      else if next == -1 then (Some(section), [])
      else (Some(section[..next]), section[next..])
  }

  /** `tag[:2] == '</'` for a tag that starts with '<'. */
  lemma ClosingTest(tag: string)
    requires |tag| >= 2 ==> tag[0] == '<'
    ensures (Slice(tag, 0, 2) == "</") <==> (|tag| >= 2 && tag[1] == '/')
  {
    if |tag| >= 2 {
      assert Slice(tag, 0, 2) == tag[..2];
    }
  }

  /** What the parser guarantees of every element it keeps in a section. */
  predicate WellFormed(e: Element) {
    (e.name == [] || e.name[0] != '/') && (e.literal.Some? ==> e.literal.value != [] && '<' !in e.literal.value)
  }

  /** The inner while-loop of `_parse` over one section: closing tags are
      skipped, text before the first tag is dropped, and the text up to the
      next '<' becomes the element's literal. */
  function ParseSection(section: string): (r: Result<seq<Element>>)
    ensures r.Success? ==> forall k :: 0 <= k < |r.value| ==> WellFormed(r.value[k])
    ensures r.Failure? ==> r.error == MalformedSection || r.error == MalformedAttributes
    decreases |section|
  {
    if |section| == 0 then Success([])
    else
      match FirstTag(section)
      case NoTag => Failure(MalformedSection)
      case Cut(tag, rest) =>
        if Slice(tag, 0, 2) == "</" then ParseSection(rest)
        else
          var t :- ParseTag(tag);
          ClosingTest(tag);
          var lt := LeadingText(rest);
          var tail :- ParseSection(lt.1);
          Success([Element(t.0, t.1, lt.0)] + tail)
  }

  /** The for-loop of `_parse` over the `#`-separated pieces; empty sections
      are dropped. */
  function ParseSections(pieces: seq<string>): (r: Result<seq<seq<Element>>>)
    ensures r.Success? ==> forall k :: 0 <= k < |r.value| ==> r.value[k] != []
    ensures r.Success? ==> forall k, j :: 0 <= k < |r.value| && 0 <= j < |r.value[k]| ==> WellFormed(r.value[k][j])
    ensures r.Failure? ==> r.error == MalformedSection || r.error == MalformedAttributes
  {
    if pieces == [] then Success([])
    else
      var s :- ParseSection(pieces[0]);
      var t :- ParseSections(pieces[1..]);
      Success(if s == [] then t else [s] + t)
  }

  /** `LocationParser(data)`. */
  function Parse(raw: string): Result<Path> {
    var data := Strip(raw);
    if |data| == 0 then Failure(EmptyLocation)
    else if data[0] != '<' then Failure(NotALocation)
    else
      var b :- ParseBaseElement(data);
      if |b.1| == 0 then Success(Path(b.0, [], false))
      else
        var pieces := Split(b.1, "#");
        var sections :- ParseSections(pieces);
        Success(Path(b.0, sections, |pieces| > 1))
  }

  // ---------------------------------------------------------------------
  // The parser's loops
  // ---------------------------------------------------------------------

  /** `_parse_attributes` */
  method ParseAttributesLoop(data0: string) returns (r: Result<Attributes>)
    ensures r == ParseAttributes(data0)
  {
    var data := Strip(data0);
    var attributes: Attributes := map[];
    while |data| > 0
      invariant AttributesFrom(data, attributes) == ParseAttributes(data0)
      decreases |data|
    {
      var cut := FirstAttribute(data);
      if cut.BadAttribute? {
        return Failure(MalformedAttributes);
      }
      attributes := attributes[cut.key := cut.value];
      data := cut.rest;
    }
    return Success(attributes);
  }

  /** Splitting one tag's text into name and attributes, as both
      `_parse_base_element` and `_parse` do. */
  method ParseTagText(tag: string) returns (r: Result<(string, Attributes)>)
    ensures r == ParseTag(tag)
  {
    var space := Find(tag, ' ');
    if space > 0 {
      var attributes := ParseAttributesLoop(Slice(tag, space, -1));
      if attributes.Failure? {
        return Failure(attributes.error);
      }
      return Success((tag[1..space], attributes.value));
    }
    return Success((Slice(tag, 1, -1), map[]));
  }

  /** What is left of the section loop's result once `done` is already in
      the new section. */
  function Continue<T>(done: seq<T>, r: Result<seq<T>>): Result<seq<T>> {
    if r.Success? then Success(done + r.value) else r
  }

  lemma ContinueEmpty<T>(r: Result<seq<T>>)
    ensures Continue([], r) == r
  {
    if r.Success? { assert [] + r.value == r.value; }
  }

  lemma ContinueDone<T>(done: seq<T>)
    ensures Continue(done, Success([])) == Success(done)
  {
    assert done + [] == done;
  }

  lemma ContinueAppend<T>(done: seq<T>, more: seq<T>, r: Result<seq<T>>)
    ensures Continue(done + more, r) == Continue(done, Continue(more, r))
  {
    if r.Success? { assert (done + more) + r.value == done + (more + r.value); }
  }

  /** The while-loop of `_parse` that consumes one section. */
  method ParseSectionLoop(section0: string) returns (r: Result<seq<Element>>)
    ensures r == ParseSection(section0)
  {
    var section := section0;
    var newSection: seq<Element> := [];
    ContinueEmpty(ParseSection(section0));
    while |section| > 0
      invariant Continue(newSection, ParseSection(section)) == ParseSection(section0)
      decreases |section|
    {
      var cut := FirstTag(section);
      if cut.NoTag? {
        return Failure(MalformedSection);
      }
      section := cut.rest;
      if Slice(cut.tag, 0, 2) == "</" {
        continue;
      }
      var t := ParseTagText(cut.tag);
      if t.Failure? {
        return Failure(t.error);
      }
      var text: Option<string>;
      text, section := LeadingText(section).0, LeadingText(section).1;
      ContinueAppend(newSection, [Element(t.value.0, t.value.1, text)], ParseSection(section));
      newSection := newSection + [Element(t.value.0, t.value.1, text)];
    }
    ContinueDone(newSection);
    return Success(newSection);
  }

  /** `_parse`: the base element, then each `#`-separated section in turn. */
  method ParseLocation(raw: string) returns (r: Result<Path>)
    ensures r == Parse(raw)
  {
    var data := Strip(raw);
    if |data| == 0 {
      return Failure(EmptyLocation);
    }
    if data[0] != '<' {
      return Failure(NotALocation);
    }
    var cut := FirstTag(data);
    if cut.NoTag? {
      return Failure(UnclosedTag);
    }
    var t := ParseTagText(cut.tag);
    if t.Failure? {
      return Failure(t.error);
    }
    var base := Element(t.value.0, t.value.1, None);
    data := cut.rest;
    if |data| == 0 {
      return Success(Path(base, [], false));
    }
    var pieces := Split(data, "#");
    var sections: seq<seq<Element>> := [];
    var i := 0;
    ContinueEmpty(ParseSections(pieces));
    while i < |pieces|
      invariant 0 <= i <= |pieces|
      invariant ParseSections(pieces) == Continue(sections, ParseSections(pieces[i..]))
    {
      var s := ParseSectionLoop(pieces[i]);
      assert pieces[i..][1..] == pieces[i + 1..];
      if s.Failure? {
        return Failure(s.error);
      }
      if s.value != [] {
        ContinueAppend(sections, [s.value], ParseSections(pieces[i + 1..]));
        sections := sections + [s.value];
      }
      i := i + 1;
    }
    ContinueDone(sections);
    return Success(Path(base, sections, |pieces| > 1));
  }

  // ---------------------------------------------------------------------
  // Properties of the parser
  // ---------------------------------------------------------------------

  /** The text after the base tag of a location. */
  function AfterBase(raw: string): string {
    match FirstTag(Strip(raw))
    case NoTag => []
    case Cut(_, rest) => rest
  }

  /** A text that starts with '<' has a first tag exactly when it has a '>'. */
  lemma FirstTagAtStart(data: string)
    requires data != [] && data[0] == '<'
    ensures FirstTag(data).NoTag? <==> '>' !in data
  {
    FindFromFirst(data, '>', 0);
  }

  /** The errors `LocationParser` raises, each exactly when its cause is
      present: an empty trimmed text (`data[0]` raises IndexError), one that
      does not start with '<', and a first tag without '>'; a malformed
      section or attribute can only arise after the base tag. */
  lemma ParseErrors(raw: string)
    ensures Parse(raw) == Failure(EmptyLocation) <==> Strip(raw) == []
    ensures Parse(raw) == Failure(NotALocation) <==> Strip(raw) != [] && Strip(raw)[0] != '<'
    ensures Parse(raw) == Failure(UnclosedTag) <==>
              Strip(raw) != [] && Strip(raw)[0] == '<' && '>' !in Strip(raw)
    ensures Parse(raw).Failure? ==>
              Parse(raw).error in {EmptyLocation, NotALocation, UnclosedTag, MalformedSection, MalformedAttributes}
  {
    var data := Strip(raw);
    if data != [] && data[0] == '<' {
      FirstTagAtStart(data);
    }
  }

  /** What a successful parse yields: a base element without literal, only
      non-empty sections of well-formed elements (closing tags dropped,
      literals non-empty and free of '<'), and `has_sectioned_data` set
      exactly when the text after the base tag contains '#'. */
  lemma ParseShape(raw: string)
    requires Parse(raw).Success?
    ensures Parse(raw).value.base.literal == None
    ensures forall k :: 0 <= k < |Parse(raw).value.sections| ==> Parse(raw).value.sections[k] != []
    ensures forall k, j :: 0 <= k < |Parse(raw).value.sections| && 0 <= j < |Parse(raw).value.sections[k]| ==>
              WellFormed(Parse(raw).value.sections[k][j])
    ensures Parse(raw).value.sectioned <==> '#' in AfterBase(raw)
  {
    var rest := AfterBase(raw);
    if rest != [] {
      SplitMany(rest, '#');
    }
  }

  // ---------------------------------------------------------------------
  // Writing a location back as text: the parse inverts it
  // ---------------------------------------------------------------------

  /** A tag as a header cell writes it: a name and attribute pairs in order. */
  datatype Tag = Tag(name: string, pairs: seq<(string, string)>)

  /** A section element as a header cell writes it. */
  datatype Spec = Spec(tag: Tag, literal: Option<string>)

  predicate NameText(n: string) {
    ' ' !in n && '>' !in n && '#' !in n
  }

  predicate KeyText(k: string) {
    (forall i :: 0 <= i < |k| ==> !IsSpace(k[i])) && '=' !in k && '"' !in k && '>' !in k && '#' !in k
  }

  predicate ValueText(v: string) {
    '"' !in v && '>' !in v && '#' !in v
  }

  predicate PairsText(ps: seq<(string, string)>) {
    forall i :: 0 <= i < |ps| ==> KeyText(ps[i].0) && ValueText(ps[i].1)
  }

  predicate LiteralText(l: string) {
    l != [] && !IsSpace(l[|l| - 1]) && '<' !in l && '#' !in l
  }

  predicate TagOk(t: Tag) {
    NameText(t.name) && PairsText(t.pairs)
  }

  predicate SpecOk(e: Spec) {
    TagOk(e.tag) && (e.tag.name == [] || e.tag.name[0] != '/')
    && (e.literal.Some? ==> LiteralText(e.literal.value))
  }

  predicate SectionOk(es: seq<Spec>) {
    es != [] && forall k :: 0 <= k < |es| ==> SpecOk(es[k])
  }

  /** `k1="v1" k2="v2" ...` */
  function PairsString(ps: seq<(string, string)>): string {
    if ps == [] then []
    else ps[0].0 + "=\"" + ps[0].1 + "\"" + (if |ps| == 1 then [] else " " + PairsString(ps[1..]))
  }

  function TagString(t: Tag): string {
    "<" + t.name + (if t.pairs == [] then [] else " " + PairsString(t.pairs)) + ">"
  }

  function SpecString(e: Spec): string {
    TagString(e.tag) + (if e.literal.Some? then e.literal.value else [])
  }

  function SectionString(es: seq<Spec>): string {
    if es == [] then [] else SpecString(es[0]) + SectionString(es[1..])
  }

  function SectionStrings(ss: seq<seq<Spec>>): seq<string> {
    seq(|ss|, k requires 0 <= k < |ss| => SectionString(ss[k]))
  }

  function PathString(base: Tag, ss: seq<seq<Spec>>): string {
    TagString(base) + Join(SectionStrings(ss), "#")
  }

  /** The attribute map of pairs added in order: a later pair overwrites
      an earlier one with the same key. */
  function AddAll(acc: Attributes, ps: seq<(string, string)>): Attributes
    decreases |ps|
  {
    if ps == [] then acc else AddAll(acc[ps[0].0 := ps[0].1], ps[1..])
  }

  /** The value of the last pair with key k. */
  function LastValue(ps: seq<(string, string)>, k: string): Option<string> {
    if ps == [] then None
    else
      var later := LastValue(ps[1..], k);
      if later.Some? then later else if ps[0].0 == k then Some(ps[0].1) else None
  }

  function ElementOf(e: Spec): Element {
    Element(e.tag.name, AddAll(map[], e.tag.pairs), e.literal)
  }

  function ElementsOf(es: seq<Spec>): seq<Element> {
    seq(|es|, k requires 0 <= k < |es| => ElementOf(es[k]))
  }

  /** A repeated key keeps the value of its last occurrence. */
  lemma {:induction false} LastWins(acc: Attributes, ps: seq<(string, string)>, k: string)
    ensures LastValue(ps, k).Some? ==> k in AddAll(acc, ps) && AddAll(acc, ps)[k] == LastValue(ps, k).value
    ensures LastValue(ps, k).None? ==>
              (k in AddAll(acc, ps) <==> k in acc) && (k in acc ==> AddAll(acc, ps)[k] == acc[k])
    decreases |ps|
  {
    if ps != [] {
      LastWins(acc[ps[0].0 := ps[0].1], ps[1..], k);
    }
  }

  lemma {:induction false} PairsStringFacts(ps: seq<(string, string)>)
    requires ps != [] && PairsText(ps)
    ensures PairsString(ps) != []
    ensures !IsSpace(PairsString(ps)[0]) && PairsString(ps)[|PairsString(ps)| - 1] == '"'
    ensures '>' !in PairsString(ps) && '#' !in PairsString(ps)
    decreases |ps|
  {
    var k := ps[0].0;
    assert k != [] ==> !IsSpace(k[0]);
    if |ps| > 1 {
      PairsStringFacts(ps[1..]);
    }
  }

  /** One pass of the attribute loop over a written pair. */
  lemma FirstAttributeOf(k: string, v: string, tail: string)
    requires KeyText(k) && ValueText(v)
    ensures FirstAttribute(k + "=\"" + v + "\"" + tail) == Attribute(k, v, Strip(tail))
  {
    SearchesOverPair(k, v, tail);
    SlicesOverPair(k, v, tail);
    StripClean(k);
    FirstAttributeAt(k + "=\"" + v + "\"" + tail, k, v, tail);
  }

  lemma FirstAttributeAt(text: string, k: string, v: string, tail: string)
    requires Find(text, '=') == |k|
    requires FindFrom(text, '"', |k| + 1) == |k| + 1
    requires FindFrom(text, '"', |k| + 2) == |k| + 2 + |v|
    requires Strip(Slice(text, 0, |k|)) == k
    requires text[|k| + 2..|k| + 2 + |v|] == v && text[|k| + 3 + |v|..] == tail
    ensures FirstAttribute(text) == Attribute(k, v, Strip(tail))
  {
    FirstAttributeCut(text, |k|, |k| + 1, |k| + 2 + |v|);
  }

  /** `_parse_attributes`'s pass in terms of the three positions it finds. */
  lemma FirstAttributeCut(text: string, equal: int, valStart: int, valEnd: int)
    requires equal == Find(text, '=') && equal >= 0
    requires valStart == FindFrom(text, '"', equal + 1) && valEnd == FindFrom(text, '"', valStart + 1)
    requires valStart >= 0 && valEnd > valStart
    ensures FirstAttribute(text) == Attribute(Strip(Slice(text, 0, equal)), text[valStart + 1..valEnd], Strip(text[valEnd + 1..]))
  {
  }

  lemma SlicesOverPair(k: string, v: string, tail: string)
    ensures Slice(k + "=\"" + v + "\"" + tail, 0, |k|) == k
    ensures (k + "=\"" + v + "\"" + tail)[|k| + 2..|k| + 2 + |v|] == v
    ensures (k + "=\"" + v + "\"" + tail)[|k| + 3 + |v|..] == tail
  {
    var text := k + "=\"" + v + "\"" + tail;
    SliceParts(k + "=\"", v, "\"" + tail);
    SliceParts(k + "=\"" + v + "\"", tail, []);
    assert text[..|k|] == k;
  }

  lemma SearchesOverPair(k: string, v: string, tail: string)
    requires KeyText(k) && ValueText(v)
    ensures Find(k + "=\"" + v + "\"" + tail, '=') == |k|
    ensures FindFrom(k + "=\"" + v + "\"" + tail, '"', |k| + 1) == |k| + 1
    ensures FindFrom(k + "=\"" + v + "\"" + tail, '"', |k| + 2) == |k| + 2 + |v|
  {
    var text := k + "=\"" + v + "\"" + tail;
    assert text == k + ("=\"" + v + "\"" + tail);
    FindConcat(k, "=\"" + v + "\"" + tail, '=');
    assert text[|k| + 1] == '"';
    assert text == (k + "=\"") + (v + ("\"" + tail));
    FindFromShift(k + "=\"", v + ("\"" + tail), '"', 0);
    FindConcat(v, "\"" + tail, '"');
  }

  /** Parsing the written attribute pairs gives the pairs' map. */
  lemma {:induction false} PairsRoundTrip(ps: seq<(string, string)>, acc: Attributes)
    requires PairsText(ps)
    ensures AttributesFrom(PairsString(ps), acc) == Success(AddAll(acc, ps))
    decreases |ps|
  {
    if ps != [] {
      var k, v := ps[0].0, ps[0].1;
      var tail: string := if |ps| == 1 then [] else " " + PairsString(ps[1..]);
      assert PairsString(ps) == k + "=\"" + v + "\"" + tail;
      FirstAttributeOf(k, v, tail);
      if |ps| > 1 {
        PairsStringFacts(ps[1..]);
        StripBlank(PairsString(ps[1..]));
      }
      PairsRoundTrip(ps[1..], acc[k := v]);
    }
  }

  lemma TagStringFacts(t: Tag)
    requires TagOk(t)
    ensures |TagString(t)| >= 2 && TagString(t)[0] == '<'
    ensures '>' !in TagString(t)[..|TagString(t)| - 1] && TagString(t)[|TagString(t)| - 1] == '>'
    ensures '#' !in TagString(t)
  {
    var inner: string := if t.pairs == [] then [] else " " + PairsString(t.pairs);
    if t.pairs != [] {
      PairsStringFacts(t.pairs);
    }
    assert TagString(t) == ("<" + t.name + inner) + ">";
    assert TagString(t)[..|TagString(t)| - 1] == "<" + t.name + inner;
  }

  /** Parsing a written tag gives its name and attribute map. */
  lemma TagRoundTrip(t: Tag)
    requires TagOk(t)
    ensures ParseTag(TagString(t)) == Success((t.name, AddAll(map[], t.pairs)))
  {
    if t.pairs == [] {
      BareTagRoundTrip(t.name);
    } else {
      AttributedTagRoundTrip(t);
    }
  }

  lemma BareTagRoundTrip(name: string)
    requires NameText(name)
    ensures ParseTag(TagString(Tag(name, []))) == Success((name, map[]))
  {
    var tag := TagString(Tag(name, []));
    assert tag == "<" + (name + ">");
    FindConcat("<", name + ">", ' ');
    FindConcat(name, ">", ' ');
    assert Slice(tag, 1, -1) == name;
  }

  lemma AttributedTagRoundTrip(t: Tag)
    requires TagOk(t) && t.pairs != []
    ensures ParseTag(TagString(t)) == Success((t.name, AddAll(map[], t.pairs)))
  {
    var p := PairsString(t.pairs);
    var tag := TagString(t);
    assert tag == "<" + (t.name + (" " + p + ">"));
    FindConcat("<", t.name + (" " + p + ">"), ' ');
    FindConcat(t.name, " " + p + ">", ' ');
    assert Find(tag, ' ') == 1 + |t.name|;
    assert tag[1..1 + |t.name|] == t.name;
    assert Slice(tag, 1 + |t.name|, -1) == " " + p;
    PairsStringFacts(t.pairs);
    StripBlank(p);
    PairsRoundTrip(t.pairs, map[]);
  }

  /** The first tag of a written tag followed by anything is that tag. */
  lemma FirstTagOf(t: Tag, rest: string)
    requires TagOk(t)
    ensures FirstTag(TagString(t) + rest) == Cut(TagString(t), rest)
  {
    var tag := TagString(t);
    TagStringFacts(t);
    TagThenRest(tag, rest);
    FirstTagCut(tag + rest, 0, |tag| - 1);
  }

  /** Where the searches of `_parse` land in a tag followed by anything. */
  lemma TagThenRest(tag: string, rest: string)
    requires |tag| >= 2 && tag[0] == '<' && '>' !in tag[..|tag| - 1] && tag[|tag| - 1] == '>'
    ensures Find(tag + rest, '<') == 0 && Find(tag + rest, '>') == |tag| - 1
    ensures Slice(tag + rest, 0, |tag| - 1 + 1) == tag && (tag + rest)[|tag| - 1 + 1..] == rest
  {
    var s := tag + rest;
    assert s == tag[..|tag| - 1] + (">" + rest);
    FindConcat(tag[..|tag| - 1], ">" + rest, '>');
    assert s[0] == '<';
    assert Slice(s, 0, |tag|) == tag;
  }

  /** `_parse`'s tag search in terms of the two positions it finds. */
  lemma FirstTagCut(s: string, startTagPos: int, endTagPos: int)
    requires startTagPos == Find(s, '<') && endTagPos == Find(s, '>') && endTagPos > startTagPos
    ensures FirstTag(s) == Cut(Slice(s, startTagPos, endTagPos + 1), s[endTagPos + 1..])
  {
  }

  /** The literal-cutting step over a written literal followed by the next
      written element (or nothing). */
  lemma LeadingTextOf(lit: Option<string>, tail: string)
    requires lit.Some? ==> lit.value != [] && '<' !in lit.value
    requires tail == [] || tail[0] == '<'
    ensures LeadingText((if lit.Some? then lit.value else []) + tail) == (lit, tail)
  {
    var l: string := if lit.Some? then lit.value else [];
    var s := l + tail;
    FindConcat(l, tail, '<');
    if tail != [] {
      assert Find(tail, '<') == 0;
      assert s[..|l|] == l && s[|l|..] == tail;
    } else {
      assert s == l;
    }
  }

  lemma SectionStringFacts(es: seq<Spec>)
    requires forall k :: 0 <= k < |es| ==> SpecOk(es[k])
    ensures es != [] ==> |SectionString(es)| >= 2 && SectionString(es)[0] == '<'
    ensures es != [] ==> !IsSpace(SectionString(es)[|SectionString(es)| - 1])
    ensures '#' !in SectionString(es)
    decreases |es|
  {
    if es != [] {
      var head := SpecString(es[0]);
      TagStringFacts(es[0].tag);
      SectionStringFacts(es[1..]);
      assert SectionString(es) == head + SectionString(es[1..]);
      if es[0].literal.Some? {
        assert head == TagString(es[0].tag) + es[0].literal.value;
      }
    }
  }

  /** One pass of the section loop over an opening tag, in terms of the
      pieces the pass computes. */
  lemma ParseSectionStep(s: string, tag: string, rest: string, t: (string, Attributes),
                         lt: (Option<string>, string), tail: seq<Element>)
    requires s != [] && FirstTag(s) == Cut(tag, rest)
    requires Slice(tag, 0, 2) != "</" && ParseTag(tag) == Success(t)
    requires LeadingText(rest) == lt && ParseSection(lt.1) == Success(tail)
    ensures ParseSection(s) == Success([Element(t.0, t.1, lt.0)] + tail)
  {
  }

  /** Parsing a written section gives its elements, in order. */
  lemma {:induction false} SectionRoundTrip(es: seq<Spec>)
    requires forall k :: 0 <= k < |es| ==> SpecOk(es[k])
    ensures ParseSection(SectionString(es)) == Success(ElementsOf(es))
    decreases |es|
  {
    if es != [] {
      var e := es[0];
      var tag := TagString(e.tag);
      var tailText := SectionString(es[1..]);
      var rest := (if e.literal.Some? then e.literal.value else []) + tailText;
      SectionHead(es);
      FirstTagOf(e.tag, rest);
      TagNotClosing(e.tag);
      TagRoundTrip(e.tag);
      SectionStringFacts(es[1..]);
      LeadingTextOf(e.literal, tailText);
      SectionRoundTrip(es[1..]);
      ParseSectionStep(SectionString(es), tag, rest, (e.tag.name, AddAll(map[], e.tag.pairs)),
                       (e.literal, tailText), ElementsOf(es[1..]));
      ElementsOfCons(es);
    } else {
      assert ElementsOf(es) == [];
    }
  }

  /** A written section is its first tag, that tag's literal, then the rest. */
  lemma SectionHead(es: seq<Spec>)
    requires es != []
    ensures SectionString(es)
            == TagString(es[0].tag) + ((if es[0].literal.Some? then es[0].literal.value else []) + SectionString(es[1..]))
  {
  }

  /** A written opening tag is not taken for a closing one. */
  lemma TagNotClosing(t: Tag)
    requires TagOk(t) && (t.name == [] || t.name[0] != '/')
    ensures Slice(TagString(t), 0, 2) != "</"
  {
    var tag := TagString(t);
    TagStringFacts(t);
    ClosingTest(tag);
    if t.name != [] { assert tag[1] == t.name[0]; }
    else if t.pairs != [] { assert tag[1] == ' '; }
    else { assert tag[1] == '>'; }
  }

  lemma ElementsOfCons(es: seq<Spec>)
    requires es != []
    ensures ElementsOf(es) == [ElementOf(es[0])] + ElementsOf(es[1..])
  {
  }

  function SectionsOf(ss: seq<seq<Spec>>): seq<seq<Element>> {
    seq(|ss|, k requires 0 <= k < |ss| => ElementsOf(ss[k]))
  }

  /** Parsing the written sections, one after the other, gives their
      elements; none of them is dropped since none is empty. */
  lemma {:induction false} SectionsRoundTrip(ss: seq<seq<Spec>>)
    requires forall k :: 0 <= k < |ss| ==> SectionOk(ss[k])
    ensures ParseSections(SectionStrings(ss)) == Success(SectionsOf(ss))
    decreases |ss|
  {
    if ss == [] {
      assert SectionStrings(ss) == [];
      assert SectionsOf(ss) == [];
    } else {
      var pieces := SectionStrings(ss);
      SectionsCons(ss);
      SectionRoundTrip(ss[0]);
      SectionsRoundTrip(ss[1..]);
      ParseSectionsStep(pieces, ElementsOf(ss[0]), SectionsOf(ss[1..]));
    }
  }

  /** The written sections and their elements, first one apart. */
  lemma SectionsCons(ss: seq<seq<Spec>>)
    requires ss != []
    ensures SectionStrings(ss)[0] == SectionString(ss[0]) && SectionStrings(ss)[1..] == SectionStrings(ss[1..])
    ensures SectionsOf(ss) == [ElementsOf(ss[0])] + SectionsOf(ss[1..])
    ensures |ElementsOf(ss[0])| == |ss[0]|
  {
    assert SectionsOf(ss)[1..] == SectionsOf(ss[1..]);
  }

  /** One pass of `_parse_sections`' loop over a non-empty section. */
  lemma ParseSectionsStep(pieces: seq<string>, head: seq<Element>, tail: seq<seq<Element>>)
    requires pieces != [] && ParseSection(pieces[0]) == Success(head) && head != []
    requires ParseSections(pieces[1..]) == Success(tail)
    ensures ParseSections(pieces) == Success([head] + tail)
  {
  }

  /** The last character of a join is the last character of its last part. */
  lemma {:induction false} JoinLast(parts: seq<string>, sep: string)
    requires parts != [] && parts[|parts| - 1] != []
    ensures Join(parts, sep) != []
    ensures Join(parts, sep)[|Join(parts, sep)| - 1] == parts[|parts| - 1][|parts[|parts| - 1]| - 1]
    decreases |parts|
  {
    if |parts| > 1 {
      JoinLast(parts[1..], sep);
      assert parts[1..][|parts| - 2] == parts[|parts| - 1];
    }
  }

  /** One run of `_parse` over a text whose pieces are known. */
  lemma ParseStep(raw: string, base: Element, rest: string, sections: seq<seq<Element>>)
    requires Strip(raw) == raw && raw != [] && raw[0] == '<'
    requires ParseBaseElement(raw) == Success((base, rest))
    requires rest != [] && ParseSections(Split(rest, "#")) == Success(sections)
    ensures Parse(raw) == Success(Path(base, sections, |Split(rest, "#")| > 1))
  {
  }

  /** A written location has no blank at either end. */
  lemma PathStringClean(base: Tag, ss: seq<seq<Spec>>)
    requires TagOk(base)
    requires forall k :: 0 <= k < |ss| ==> SectionOk(ss[k])
    ensures Strip(PathString(base, ss)) == PathString(base, ss)
  {
    var pieces := SectionStrings(ss);
    var raw := PathString(base, ss);
    TagStringFacts(base);
    if ss != [] {
      var last := SectionString(ss[|ss| - 1]);
      SectionStringFacts(ss[|ss| - 1]);
      assert pieces[|pieces| - 1] == last;
      JoinLast(pieces, "#");
      assert raw[|raw| - 1] == last[|last| - 1];
    }
    StripClean(raw);
  }

  /** Parsing a written location gives its base element, its sections'
      elements, and sectioned data exactly when there are two or more
      sections. */
  lemma PathRoundTrip(base: Tag, ss: seq<seq<Spec>>)
    requires TagOk(base)
    requires forall k :: 0 <= k < |ss| ==> SectionOk(ss[k])
    ensures Parse(PathString(base, ss)) ==
              Success(Path(Element(base.name, AddAll(map[], base.pairs), None), SectionsOf(ss), |ss| > 1))
  {
    var pieces := SectionStrings(ss);
    var rest := Join(pieces, "#");
    var raw := PathString(base, ss);
    TagStringFacts(base);
    FirstTagOf(base, rest);
    TagRoundTrip(base);
    PathStringClean(base, ss);
    var b := Element(base.name, AddAll(map[], base.pairs), None);
    assert ParseBaseElement(raw) == Success((b, rest));
    if ss == [] {
      assert rest == [];
      assert SectionsOf(ss) == [];
    } else {
      forall k | 0 <= k < |pieces| ensures '#' !in pieces[k] {
        SectionStringFacts(ss[k]);
      }
      SectionStringFacts(ss[0]);
      assert rest != [];
      SplitJoin(pieces, '#');
      SectionsRoundTrip(ss);
      ParseStep(raw, b, rest, SectionsOf(ss));
    }
  }

  /** A closing tag in a section is skipped. */
  lemma ClosingTagDropped(x: string, s: string)
    requires '>' !in x
    ensures ParseSection("</" + x + ">" + s) == ParseSection(s)
  {
    var tag := "</" + x + ">";
    var text := tag + s;
    assert text == "</" + (x + (">" + s));
    FindConcat("</", x + (">" + s), '>');
    FindConcat(x, ">" + s, '>');
    assert Slice(text, 0, |tag|) == tag;
    assert text[|tag|..] == s;
    assert Slice(tag, 0, 2) == "</";
  }

  /** Text before a section's first tag is discarded. */
  lemma LeadingJunkDropped(j: string, s: string)
    requires '<' !in j && '>' !in j
    requires s != [] && s[0] == '<'
    ensures ParseSection(j + s) == ParseSection(s)
  {
    FirstTagSkips(j, s);
  }

  lemma FirstTagSkips(j: string, s: string)
    requires '<' !in j && '>' !in j
    requires s != [] && s[0] == '<'
    ensures FirstTag(j + s) == FirstTag(s)
  {
    var t := j + s;
    FindConcat(j, s, '<');
    FindConcat(j, s, '>');
    var e := Find(s, '>');
    assert Find(s, '<') == 0 && Find(t, '<') == |j|;
    if e > 0 {
      assert t[|j|..] == s;
      assert Slice(t, |j|, |j| + e + 1) == t[|j|..][..e + 1];
      assert Slice(s, 0, e + 1) == s[..e + 1];
      assert t[|j| + e + 1..] == s[e + 1..];
      assert FirstTag(t) == Cut(s[..e + 1], s[e + 1..]);
    } else {
      assert Find(t, '>') == -1;
    }
  }

  /** A base tag alone: no sections, no sectioned data. */
  lemma NoteExample(raw: string)
    requires raw == "<mods:note>"
    ensures Parse(raw) == Success(Path(Element("mods:note", map[], None), [], false))
  {
    var base := Tag("mods:note", []);
    assert SectionStrings([]) == [];
    assert TagString(base) == raw;
    assert NameText("mods:note");
    assert PathString(base, []) == TagString(base) + [];
    assert PathString(base, []) == raw;
    PathRoundTrip(base, []);
    assert SectionsOf([]) == [];
    assert AddAll(map[], []) == map[];
  }

  /** A text that does not start with '<' is refused. */
  lemma InvalidExample()
    ensures Parse("asdf1234") == Failure(NotALocation)
  {
    ParseErrors("asdf1234");
    StripClean("asdf1234");
  }

  /** The personal-name example: a base `mods:name` with its type, a
      name-part section and a role section whose role term carries the
      literal "winner". */
  lemma NameExample(raw: string)
    requires raw == NameExampleText
    ensures Parse(raw) ==
              Success(Path(Element("mods:name", map["type" := "personal"], None),
                           [[Element("mods:namePart", map[], None)],
                            [Element("mods:role", map[], None),
                             Element("mods:roleTerm", map["type" := "text"], Some("winner"))]],
                           true))
  {
    NameExampleWritten();
    PathRoundTrip(NameBase, NameExampleSections);
    NameExampleParsed();
  }

  const NameExampleText: string :=
    "<mods:name type=\"personal\">" + "<mods:namePart>" + "#" + "<mods:role>" + "<mods:roleTerm type=\"text\">winner"
  const NameBase := Tag("mods:name", [("type", "personal")])
  const NameTerm := Spec(Tag("mods:roleTerm", [("type", "text")]), Some("winner"))
  const NameExampleSections := [[Spec(Tag("mods:namePart", []), None)], [Spec(Tag("mods:role", []), None), NameTerm]]

  lemma NameExampleWritten()
    ensures TagOk(NameBase) && forall k :: 0 <= k < |NameExampleSections| ==> SectionOk(NameExampleSections[k])
    ensures PathString(NameBase, NameExampleSections) == NameExampleText
  {
    NameExampleOk();
    NameExampleString();
  }

  lemma NameExampleOk()
    ensures TagOk(NameBase) && forall k :: 0 <= k < |NameExampleSections| ==> SectionOk(NameExampleSections[k])
  {
    NameExampleNames();
    NameExampleValues();
    assert SpecOk(NameTerm);
  }

  lemma NameExampleNames()
    ensures NameText("mods:name") && NameText("mods:namePart") && NameText("mods:role") && NameText("mods:roleTerm")
  {
  }

  lemma NameExampleValues()
    ensures KeyText("type") && ValueText("personal") && ValueText("text") && LiteralText("winner")
  {
  }

  lemma NameExampleString()
    ensures PathString(NameBase, NameExampleSections) == NameExampleText
  {
    NameBaseString();
    NameSectionStrings();
    var parts := ["<mods:namePart>", "<mods:role>" + "<mods:roleTerm type=\"text\">winner"];
    assert Join(parts, "#") == parts[0] + "#" + parts[1];
  }

  lemma NameBaseString()
    ensures TagString(NameBase) == "<mods:name type=\"personal\">"
  {
    assert PairsString(NameBase.pairs) == "type=\"personal\"";
  }

  lemma NameTermString()
    ensures SpecString(NameTerm) == "<mods:roleTerm type=\"text\">winner"
  {
    assert PairsString(NameTerm.tag.pairs) == "type=\"text\"";
    assert TagString(NameTerm.tag) == "<mods:roleTerm type=\"text\">";
  }

  lemma NameSectionStrings()
    ensures SectionStrings(NameExampleSections) ==
              ["<mods:namePart>", "<mods:role>" + "<mods:roleTerm type=\"text\">winner"]
  {
    var part, role := Spec(Tag("mods:namePart", []), None), Spec(Tag("mods:role", []), None);
    NameTermString();
    SectionOne(part);
    SectionTwo(role, NameTerm);
    PlainSpec("mods:namePart", "<mods:namePart>");
    PlainSpec("mods:role", "<mods:role>");
    assert SectionStrings(NameExampleSections) == [SectionString([part]), SectionString([role, NameTerm])];
  }

  lemma PlainSpec(name: string, text: string)
    requires text == "<" + name + ">"
    ensures SpecString(Spec(Tag(name, []), None)) == text
  {
  }

  lemma SectionOne(a: Spec)
    ensures SectionString([a]) == SpecString(a)
  {
    assert [a][1..] == [];
  }

  lemma SectionTwo(a: Spec, b: Spec)
    ensures SectionString([a, b]) == SpecString(a) + SpecString(b)
  {
    assert [a, b][1..] == [b];
    SectionOne(b);
  }

  lemma NameExampleParsed()
    ensures AddAll(map[], NameBase.pairs) == map["type" := "personal"]
    ensures SectionsOf(NameExampleSections) ==
              [[Element("mods:namePart", map[], None)],
               [Element("mods:role", map[], None), Element("mods:roleTerm", map["type" := "text"], Some("winner"))]]
  {
    var ss := NameExampleSections;
    assert AddAll(map[], NameTerm.tag.pairs) == map["type" := "text"];
    assert ElementsOf(ss[0]) == [Element("mods:namePart", map[], None)];
    assert ElementsOf(ss[1]) == [Element("mods:role", map[], None),
                                 Element("mods:roleTerm", map["type" := "text"], Some("winner"))];
    assert SectionsOf(ss) == [ElementsOf(ss[0]), ElementsOf(ss[1])];
  }
}
