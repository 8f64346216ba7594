/** The `Mapper` class: a record being filled in place, one `add_data`
    call at a time. Each method is proved to leave the record as the
    corresponding function of `Mapping` says. */
module Mappers {
  import opened Common
  import opened Text
  import opened Location
  import opened Divisions
  import opened Document
  import opened Mapping

  // ---------------------------------------------------------------------
  // The values of a cell
  // ---------------------------------------------------------------------

  /** `[p.strip() for p in parts]`, then `if p` filtering the empty ones. */
  method KeepPieces(parts: seq<string>) returns (pieces: seq<string>)
    ensures pieces == Kept(parts)
  {
    pieces := [];
    var i := 0;
    while i < |parts|
      invariant 0 <= i <= |parts|
      invariant pieces + Kept(parts[i..]) == Kept(parts)
    {
      assert parts[i..][1..] == parts[i + 1..];
      var p := Strip(parts[i]);
      ghost var rest := Kept(parts[i + 1..]);
      assert Kept(parts[i..]) == (if p == [] then [] else [p]) + rest;
      if p != [] {
        assert pieces + ([p] + rest) == (pieces + [p]) + rest;
        pieces := pieces + [p];
      }
      i := i + 1;
    }
    assert parts[|parts|..] == [];
  }

  /** `[self._get_data_divs(p, sectioned) for p in pieces]` */
  method DividePieces(pieces: seq<string>, sectioned: bool) returns (vals: seq<seq<string>>)
    requires Divisible(pieces, sectioned)
    ensures vals == Divided(pieces, sectioned)
  {
    vals := [];
    var j := 0;
    while j < |pieces|
      invariant 0 <= j <= |pieces|
      invariant |vals| == j
      invariant forall k :: 0 <= k < j ==> vals[k] == DataDivs(pieces[k], sectioned)
    {
      var d := GetDataDivs(pieces[j], sectioned);
      vals := vals + [d];
      j := j + 1;
    }
    var whole := Divided(pieces, sectioned);
    assert |whole| == |vals|;
    assert forall k :: 0 <= k < |vals| ==> vals[k] == whole[k];
  }

  /** The values of a MODS cell, as `add_data` computes them. */
  method DataValues(data: string, sectioned: bool) returns (vals: seq<seq<string>>)
    requires Divisible(Pieces(data), sectioned)
    ensures vals == Divided(Pieces(data), sectioned)
  {
    var parts := Split(data, "||");
    var pieces := KeepPieces(parts);
    vals := DividePieces(pieces, sectioned);
  }

  // ---------------------------------------------------------------------
  // Building one item from one value
  // ---------------------------------------------------------------------

  /** `_add_name_data`'s body for one value: a name, then the elements of
      every section that has a division (or is a role). */
  method BuildName(base: Element, sections: seq<seq<Element>>, divs: seq<string>) returns (n: Name)
    ensures n == NameItem(base, sections, divs)
  {
    n := Name(Get(base.attributes, "type"), [], []);
    var index := 0;
    while index < |sections|
      invariant 0 <= index <= |sections|
      invariant NameItem(base, sections, divs) == NameSections(n, sections, divs, index)
    {
      var div := if index < |divs| then Some(Strip(divs[index])) else None;
      var section := sections[index];
      if Truthy(div) || (section != [] && section[0].name == "mods:role") {
        var j := 0;
        ghost var n0 := n;
        while j < |section|
          invariant 0 <= j <= |section|
          invariant NameElements(n0, section, div) == NameElements(n, section[j..], div)
        {
          assert section[j..][1..] == section[j + 1..];
          var e := section[j];
          var a := e.attributes;
          if e.name == "mods:namePart" {
            n := n.(parts := n.parts + [NamePart(div, Get(a, "type"))]);
          } else if e.name == "mods:roleTerm" {
            if Truthy(e.literal) {
              n := n.(roles := n.roles + [Role(e.literal.value, Get(a, "type"), Get(a, "authority"))]);
            } else if Truthy(div) {
              n := n.(roles := n.roles + [Role(div.value, Get(a, "type"), Get(a, "authority"))]);
            }
          }
          j := j + 1;
        }
      }
      index := index + 1;
    }
  }

  /** `_add_title_data`'s body for one value. */
  method BuildTitle(base: Element, sections: seq<seq<Element>>, divs: seq<string>) returns (t: TitleInfo)
    ensures t == TitleItem(base, sections, divs)
  {
    var a := base.attributes;
    t := TitleInfo(Get(a, "type"), Get(a, "displayLabel"), None, None, None, None);
    var i := 0;
    while i < |sections| && i < |divs|
      invariant 0 <= i <= |sections| && i <= |divs|
      invariant TitleItem(base, sections, divs) == TitleSections(t, sections[i..], divs[i..])
    {
      assert sections[i..][1..] == sections[i + 1..] && divs[i..][1..] == divs[i + 1..];
      var section, div := sections[i], divs[i];
      var j := 0;
      ghost var t0 := t;
      while j < |section|
        invariant 0 <= j <= |section|
        invariant TitleElements(t0, section, div) == TitleElements(t, section[j..], div)
      {
        assert section[j..][1..] == section[j + 1..];
        var n := section[j].name;
        if n == "mods:title" {
          t := t.(title := Some(div));
        } else if n == "mods:partName" {
          t := t.(partName := Some(div));
        } else if n == "mods:partNumber" {
          t := t.(partNumber := Some(div));
        } else if n == "mods:nonSort" {
          t := t.(nonSort := Some(div));
        }
        j := j + 1;
      }
      i := i + 1;
    }
  }

  lemma SubjectSuffixOk(sections: seq<seq<Element>>, divs: seq<string>, i: nat)
    requires SubjectSectionsOk(sections, divs) && i <= |sections| && i <= |divs|
    ensures SubjectSectionsOk(sections[i..], divs[i..])
  {
    forall k | 0 <= k < |sections[i..]| && k < |divs[i..]|
      ensures |sections[i..][k]| > 0
    {
      assert sections[i..][k] == sections[i + k];
    }
  }

  /** The subject branch's body for one value. */
  method BuildSubject(base: Element, sections: seq<seq<Element>>, divs: seq<string>) returns (s: Subject)
    requires SubjectSectionsOk(sections, divs)
    ensures s == SubjectItem(base, sections, divs)
  {
    s := Subject(Get(base.attributes, "authority"), [], [], None, None);
    var i := 0;
    while i < |sections| && i < |divs|
      invariant 0 <= i <= |sections| && i <= |divs|
      invariant SubjectSectionsOk(sections[i..], divs[i..])
      invariant SubjectItem(base, sections, divs) == SubjectSections(s, sections[i..], divs[i..])
    {
      assert sections[i..][1..] == sections[i + 1..] && divs[i..][1..] == divs[i + 1..];
      SubjectSuffixOk(sections, divs, i + 1);
      assert sections[i..][0] == sections[i];
      var section, div := sections[i], divs[i];
      var n := section[0].name;
      if n == "mods:topic" {
        s := s.(topics := s.topics + [div]);
      } else if n == "mods:temporal" {
        s := s.(temporals := s.temporals + [div]);
      } else if n == "mods:geographic" {
        s := s.(geographic := Some(div));
      } else if n == "mods:hierarchicalGeographic" {
        var hg := HierarchicalGeographic(None, None);
        if section[1].name == "mods:country" {
          hg := hg.(country := section[1].literal);
          if section[2].name == "mods:state" {
            hg := hg.(state := Some(div));
          }
        }
        s := s.(hierarchical := Some(hg));
      }
      i := i + 1;
    }
  }

  lemma LocationSuffixOk(sections: seq<seq<Element>>, divs: seq<string>, i: nat)
    requires LocationSectionsOk(sections, divs) && i <= |sections| && i <= |divs|
    ensures LocationSectionsOk(sections[i..], divs[i..])
  {
    forall k | 0 <= k < |sections[i..]| && k < |divs[i..]|
      ensures |sections[i..][k]| > 0
    {
      assert sections[i..][k] == sections[i + k];
    }
  }

  /** The location branch's body for one value. */
  method BuildLocation(sections: seq<seq<Element>>, divs: seq<string>) returns (l: ModsLocation)
    requires LocationSectionsOk(sections, divs)
    ensures l == LocationSections(ModsLocation(None, None, None), sections, divs)
  {
    l := ModsLocation(None, None, None);
    var i := 0;
    while i < |sections| && i < |divs|
      invariant 0 <= i <= |sections| && i <= |divs|
      invariant LocationSectionsOk(sections[i..], divs[i..])
      invariant LocationSections(ModsLocation(None, None, None), sections, divs)
                == LocationSections(l, sections[i..], divs[i..])
    {
      assert sections[i..][1..] == sections[i + 1..] && divs[i..][1..] == divs[i + 1..];
      LocationSuffixOk(sections, divs, i + 1);
      assert sections[i..][0] == sections[i];
      var section, div := sections[i], divs[i];
      var e := section[0];
      if e.name == "mods:url" {
        l := l.(url := Some(if Truthy(e.literal) then e.literal.value else div));
      } else if e.name == "mods:physicalLocation" {
        l := l.(physical := Some(if Truthy(e.literal) then e.literal.value else div));
      } else if e.name == "mods:holdingSimple" {
        if section[1].name == "mods:copyInformation" && section[2].name == "mods:note" {
          l := l.(holdingNote := Some(div));
        }
      }
      i := i + 1;
    }
  }

  // ---------------------------------------------------------------------
  // The mapper
  // ---------------------------------------------------------------------

  /** `Mapper`: the record it fills (MODS or DarwinCore), and the groups
      whose inherited content it has already cleared. */
  class Mapper {
    const recordType: RecordType
    const variant: Variant
    var doc: Mods
    var dwc: map<string, string>
    var cleared: set<Group>

    function Snapshot(): State
      reads this
    {
      State(doc, dwc, cleared)
    }

    /** A mapper over the parent's record, or over a fresh one. */
    constructor (t: RecordType, v: Variant, parent: Option<Mods>)
      ensures recordType == t && variant == v
      ensures Snapshot() == Initial(t, parent)
    {
      recordType := t;
      variant := v;
      doc := if t == ModsRecord && parent.Some? then parent.value else EmptyMods;
      dwc := map[];
      cleared := {};
    }

    /** `if not self._cleared_fields.get(key): ...` */
    method ClearOnce(g: Group)
      modifies this
      ensures Snapshot() == Touch(old(Snapshot()), g)
    {
      if g !in cleared {
        doc := Cleared(doc, g);
        cleared := cleared + {g};
      }
    }

    method AddNames(base: Element, sections: seq<seq<Element>>, vals: seq<seq<string>>)
      modifies this
      ensures Snapshot() == NamesStep(old(Snapshot()), base, sections, vals)
    {
      ClearOnce(NamesGroup);
      ghost var d1 := doc;
      var i := 0;
      while i < |vals|
        invariant 0 <= i <= |vals|
        invariant doc == d1.(names := d1.names + NamesOf(base, sections, vals[..i]))
        invariant Snapshot() == Touch(old(Snapshot()), NamesGroup).(doc := doc)
      {
        var n := BuildName(base, sections, vals[i]);
        assert vals[..i + 1][..i] == vals[..i];
        doc := doc.(names := doc.names + [n]);
        i := i + 1;
      }
      assert vals[..|vals|] == vals;
    }

    method AddNamePart(base: Element, vals: seq<seq<string>>)
      requires NonEmptyDivs(vals) && !NamePartStep(Snapshot(), base, vals).Undefined?
      modifies this
      ensures Done(Snapshot()) == NamePartStep(old(Snapshot()), base, vals)
    {
      var last := doc.names[|doc.names| - 1];
      last := last.(parts := last.parts + [NamePart(Some(vals[0][0]), Get(base.attributes, "type"))]);
      doc := doc.(names := doc.names[..|doc.names| - 1] + [last]);
    }

    method AddTitles(base: Element, sections: seq<seq<Element>>, vals: seq<seq<string>>)
      modifies this
      ensures Snapshot() == TitlesStep(old(Snapshot()), base, sections, vals)
    {
      ClearOnce(TitlesGroup);
      ghost var d1 := doc;
      var i := 0;
      while i < |vals|
        invariant 0 <= i <= |vals|
        invariant doc == d1.(titles := d1.titles + TitlesOf(base, sections, vals[..i]))
        invariant Snapshot() == Touch(old(Snapshot()), TitlesGroup).(doc := doc)
      {
        var t := BuildTitle(base, sections, vals[i]);
        assert vals[..i + 1][..i] == vals[..i];
        doc := doc.(titles := doc.titles + [t]);
        i := i + 1;
      }
      assert vals[..|vals|] == vals;
    }

    method AddLanguages(sections: seq<seq<Element>>, vals: seq<seq<string>>)
      requires NonEmptyDivs(vals) && !LanguagesStep(Snapshot(), sections, vals).Undefined?
      modifies this
      ensures Done(Snapshot()) == LanguagesStep(old(Snapshot()), sections, vals)
    {
      ClearOnce(LanguagesGroup);
      if vals == [] {
        return;
      }
      ghost var d1 := doc;
      var i := 0;
      while i < |vals|
        invariant 0 <= i <= |vals|
        invariant doc == d1.(languages := d1.languages + LanguagesOf(sections, vals[..i]))
        invariant Snapshot() == Touch(old(Snapshot()), LanguagesGroup).(doc := doc)
      {
        var a := sections[0][0].attributes;
        assert vals[..i + 1][..i] == vals[..i];
        doc := doc.(languages := doc.languages + [Language(vals[i][0], Get(a, "authority"), Get(a, "type"))]);
        i := i + 1;
      }
      assert vals[..|vals|] == vals;
    }

    method AddGenres(base: Element, vals: seq<seq<string>>)
      requires NonEmptyDivs(vals)
      modifies this
      ensures Snapshot() == GenresStep(old(Snapshot()), base, vals)
    {
      ClearOnce(GenresGroup);
      ghost var d1 := doc;
      var i := 0;
      while i < |vals|
        invariant 0 <= i <= |vals|
        invariant doc == d1.(genres := d1.genres + GenresOf(base, vals[..i]))
        invariant Snapshot() == Touch(old(Snapshot()), GenresGroup).(doc := doc)
      {
        assert vals[..i + 1][..i] == vals[..i];
        doc := doc.(genres := doc.genres + [Genre(vals[i][0], Get(base.attributes, "authority"))]);
        i := i + 1;
      }
      assert vals[..|vals|] == vals;
    }

    method AddNotes(base: Element, vals: seq<seq<string>>)
      requires NonEmptyDivs(vals)
      modifies this
      ensures Snapshot() == NotesStep(old(Snapshot()), base, vals)
    {
      ClearOnce(NotesGroup);
      ghost var d1 := doc;
      var i := 0;
      while i < |vals|
        invariant 0 <= i <= |vals|
        invariant doc == d1.(notes := d1.notes + NotesOf(base, vals[..i]))
        invariant Snapshot() == Touch(old(Snapshot()), NotesGroup).(doc := doc)
      {
        var a := base.attributes;
        assert vals[..i + 1][..i] == vals[..i];
        doc := doc.(notes := doc.notes + [Note(vals[i][0], Get(a, "type"), Get(a, "displayLabel"))]);
        i := i + 1;
      }
      assert vals[..|vals|] == vals;
    }

    method AddIdentifiers(base: Element, vals: seq<seq<string>>)
      requires NonEmptyDivs(vals)
      modifies this
      ensures Snapshot() == IdentifiersStep(old(Snapshot()), base, vals)
    {
      ClearOnce(IdentifiersGroup);
      ghost var d1 := doc;
      var i := 0;
      while i < |vals|
        invariant 0 <= i <= |vals|
        invariant doc == d1.(identifiers := d1.identifiers + IdentifiersOf(base, vals[..i]))
        invariant Snapshot() == Touch(old(Snapshot()), IdentifiersGroup).(doc := doc)
      {
        var a := base.attributes;
        assert vals[..i + 1][..i] == vals[..i];
        doc := doc.(identifiers := doc.identifiers + [Identifier(vals[i][0], Get(a, "type"), Get(a, "displayLabel"))]);
        i := i + 1;
      }
      assert vals[..|vals|] == vals;
    }

    method AddSubjects(base: Element, sections: seq<seq<Element>>, vals: seq<seq<string>>)
      requires !SubjectsStep(Snapshot(), base, sections, vals).Undefined?
      modifies this
      ensures Done(Snapshot()) == SubjectsStep(old(Snapshot()), base, sections, vals)
    {
      ClearOnce(SubjectsGroup);
      AppendSubjects(base, sections, vals);
    }

    /** The `mods:subject` loop of `_process_mods_element` over the values
      (mods_generator/__init__.py:585-609): one subject each. */
    method AppendSubjects(base: Element, sections: seq<seq<Element>>, vals: seq<seq<string>>)
      requires SubjectsOk(sections, vals)
      modifies this
      ensures doc == old(doc).(subjects := old(doc).subjects + SubjectsOf(base, sections, vals))
      ensures dwc == old(dwc) && cleared == old(cleared)
    {
      var i := 0;
      while i < |vals|
        invariant 0 <= i <= |vals|
        invariant doc == old(doc).(subjects := old(doc).subjects + SubjectsOf(base, sections, vals[..i]))
        invariant dwc == old(dwc) && cleared == old(cleared)
      {
        var s := BuildSubject(base, sections, vals[i]);
        assert vals[..i + 1][..i] == vals[..i];
        doc := doc.(subjects := doc.subjects + [s]);
        i := i + 1;
      }
      assert vals[..|vals|] == vals;
    }

    method AddLocations(sections: seq<seq<Element>>, vals: seq<seq<string>>)
      requires !LocationsStep(Snapshot(), sections, vals).Undefined?
      modifies this
      ensures Done(Snapshot()) == LocationsStep(old(Snapshot()), sections, vals)
    {
      ClearOnce(LocationsGroup);
      AppendLocations(sections, vals);
    }

    /** The `mods:location` loop of `_process_mods_element` over the values
      (mods_generator/__init__.py:625-648): one location each. */
    method AppendLocations(sections: seq<seq<Element>>, vals: seq<seq<string>>)
      requires LocationsOk(sections, vals)
      modifies this
      ensures doc == old(doc).(locations := old(doc).locations + LocationsOf(sections, vals))
      ensures dwc == old(dwc) && cleared == old(cleared)
    {
      var i := 0;
      while i < |vals|
        invariant 0 <= i <= |vals|
        invariant doc == old(doc).(locations := old(doc).locations + LocationsOf(sections, vals[..i]))
        invariant dwc == old(dwc) && cleared == old(cleared)
      {
        var l := BuildLocation(sections, vals[i]);
        assert vals[..i + 1][..i] == vals[..i];
        doc := doc.(locations := doc.locations + [l]);
        i := i + 1;
      }
      assert vals[..|vals|] == vals;
    }

    method AddRelated(base: Element, sections: seq<seq<Element>>, vals: seq<seq<string>>)
      requires NonEmptyDivs(vals) && !RelatedStep(Snapshot(), base, sections, vals).Undefined?
      modifies this
      ensures Done(Snapshot()) == RelatedStep(old(Snapshot()), base, sections, vals)
    {
      ClearOnce(RelatedGroup);
      if vals == [] {
        return;
      }
      AppendRelated(base, sections, vals);
    }

    /** The `mods:relatedItem` loop of `_process_mods_element` over the values
      (mods_generator/__init__.py:653-662): one related item per value,
      titled when the first section is a title. */
    method AppendRelated(base: Element, sections: seq<seq<Element>>, vals: seq<seq<string>>)
      requires NonEmptyDivs(vals) && RelatedSectionsOk(sections)
      modifies this
      ensures doc == old(doc).(relatedItems := old(doc).relatedItems + RelatedOf(base, sections, vals))
      ensures dwc == old(dwc) && cleared == old(cleared)
    {
      var i := 0;
      while i < |vals|
        invariant 0 <= i <= |vals|
        invariant doc == old(doc).(relatedItems := old(doc).relatedItems + RelatedOf(base, sections, vals[..i]))
        invariant dwc == old(dwc) && cleared == old(cleared)
      {
        var a := base.attributes;
        var titled := sections[0][0].name == "mods:titleInfo" && sections[0][1].name == "mods:title";
        var item := RelatedItem(Get(a, "type"), Get(a, "displayLabel"), if titled then Some(vals[i][0]) else None);
        assert vals[..i + 1][..i] == vals[..i];
        doc := doc.(relatedItems := doc.relatedItems + [item]);
        i := i + 1;
      }
      assert vals[..|vals|] == vals;
    }

    /** `_add_origin_info_data`, after the clearing. */
    method AddOriginInfo(base: Element, sections: seq<seq<Element>>, vals: seq<seq<string>>) returns (o: Outcome)
      requires !OriginStep(Snapshot(), base, sections, vals).Undefined?
      modifies this
      ensures var r := OriginStep(old(Snapshot()), base, sections, vals);
              (r.Done? ==> o == Pass && Snapshot() == r.value) && (r.Raised? ==> o == Fail(r.error))
    {
      ClearOnce(OriginGroup);
      var info := doc.originInfo.value;
      var shown := Get(base.attributes, "displayLabel");
      if shown.Some? {
        info := info.(displayLabel := shown);
      }
      doc := doc.(originInfo := Some(info));
      ghost var s1 := Snapshot();
      ghost var whole := OriginValues(info, sections, vals, 0);
      var i := 0;
      while i < |vals|
        invariant 0 <= i <= |vals|
        invariant whole == OriginValues(info, sections, vals, i)
        invariant Snapshot() == s1.(doc := s1.doc.(originInfo := Some(info)))
      {
        var divs := vals[i];
        ghost var start := info;
        var index := 0;
        while index < |sections|
          invariant 0 <= index <= |sections|
          invariant OriginWalk(start, sections, divs, 0) == OriginWalk(info, sections, divs, index)
          invariant Snapshot() == s1.(doc := s1.doc.(originInfo := Some(info)))
          invariant !OriginWalk(info, sections, divs, index).Undefined?
        {
          var div := divs[index];
          if div != [] {
            var e := sections[index][0];
            var kind := DateKindOf(e.name);
            if kind.Some? {
              info := info.(dates := info.dates + [DateOf(kind.value, div, e.attributes)]);
            } else if e.name == "mods:place" {
              info := info.(places := info.places + [div]);
            } else if e.name == "mods:publisher" {
              info := info.(publisher := Some(div));
            } else {
              return Fail(UnhandledOriginInfo(e.name));
            }
            doc := doc.(originInfo := Some(info));
          }
          index := index + 1;
        }
        i := i + 1;
      }
      return Pass;
    }

    /** The physical-description branch, after the clearing. */
    method AddPhysical(sections: seq<seq<Element>>, vals: seq<seq<string>>)
      requires !PhysicalStep(variant, Snapshot(), sections, vals).Undefined?
      modifies this
      ensures Done(Snapshot()) == PhysicalStep(variant, old(Snapshot()), sections, vals)
    {
      ClearOnce(PhysicalGroup);
      var divs := vals[0];
      var p := doc.physical.value;
      ghost var s1 := Snapshot();
      var index := 0;
      while index < |sections|
        invariant 0 <= index <= |sections|
        invariant PhysicalWalk(variant, s1.doc.physical.value, sections, divs, 0)
                  == PhysicalWalk(variant, p, sections, divs, index)
        invariant Snapshot() == s1.(doc := s1.doc.(physical := Some(p)))
      {
        var e := sections[index][0];
        if e.name == "mods:extent" {
          p := p.(extent := Some(divs[index]));
        } else if e.name == "mods:digitalOrigin" {
          if index < |divs| {
            p := p.(digitalOrigin := Some(divs[index]));
          } else {
            p := p.(digitalOrigin := e.literal);
          }
        } else if e.name == "mods:note" {
          p := p.(note := Some(divs[index]));
        }
        doc := doc.(physical := Some(p));
        index := index + 1;
      }
    }

    /** `_process_mods_element`. */
    method ProcessModsElement(path: Path, vals: seq<seq<string>>) returns (o: Outcome)
      requires NonEmptyDivs(vals) && !ModsStep(variant, Snapshot(), path, vals).Undefined?
      modifies this
      ensures var r := ModsStep(variant, old(Snapshot()), path, vals);
              (r.Done? ==> o == Pass && Snapshot() == r.value) && (r.Raised? ==> o == Fail(r.error))
    {
      var route := RouteOf(variant, path.base.name);
      if route.None? {
        return Fail(UnhandledElement(path.base.name));
      }
      o := FollowRoute(route.value, path, vals);
    }

    /** The branch of `_process_mods_element` for one route. */
    method FollowRoute(route: Route, path: Path, vals: seq<seq<string>>) returns (o: Outcome)
      requires NonEmptyDivs(vals) && !RouteStep(variant, route, Snapshot(), path, vals).Undefined?
      modifies this
      ensures var r := RouteStep(variant, route, old(Snapshot()), path, vals);
              (r.Done? ==> o == Pass && Snapshot() == r.value) && (r.Raised? ==> o == Fail(r.error))
    {
      var base, sections := path.base, path.sections;
      o := Pass;
      match route
      case ToId =>
        if "ID" in base.attributes {
          doc := doc.(id := Some(vals[0][0]));
        }
      case ToNames => AddNames(base, sections, vals);
      case ToNamePart => AddNamePart(base, vals);
      case ToTitles => AddTitles(base, sections, vals);
      case ToLanguages => AddLanguages(sections, vals);
      case ToGenres => AddGenres(base, vals);
      case ToOrigin => o := AddOriginInfo(base, sections, vals);
      case ToPhysical => AddPhysical(sections, vals);
      case ToResourceType =>
        ClearOnce(ResourceGroup);
        doc := doc.(resourceType := Some(vals[0][0]));
      case ToAudience =>
        ClearOnce(AudienceGroup);
        doc := doc.(targetAudiences := doc.targetAudiences + [vals[0][0]]);
      case ToAbstract =>
        ClearOnce(AbstractGroup);
        doc := doc.(abstractText := Some(vals[0][0]));
      case ToNotes => AddNotes(base, vals);
      case ToSubjects => AddSubjects(base, sections, vals);
      case ToIdentifiers => AddIdentifiers(base, vals);
      case ToLocations => AddLocations(sections, vals);
      case ToRelated => AddRelated(base, sections, vals);
    }

    /** `_process_dwc_element`. */
    method ProcessDwcElement(name: string, text: string) returns (o: Outcome)
      modifies this
      ensures var r := DwcStore(variant, old(Snapshot()), name, text);
              (r.Done? ==> o == Pass && Snapshot() == r.value) && (r.Raised? ==> o == Fail(r.error) && Snapshot() == old(Snapshot()))
    {
      if HandledDwc(variant, name) {
        dwc := dwc[name := text];
        o := Pass;
      } else {
        o := Fail(UnhandledDwcElement(name));
      }
    }

    /** `add_data` after the parse. */
    method Store(path: Path, data: string) returns (o: Outcome)
      requires !StoreStep(recordType, variant, Snapshot(), path, data).Undefined?
      modifies this
      ensures var r := StoreStep(recordType, variant, old(Snapshot()), path, data);
              (r.Done? ==> o == Pass && Snapshot() == r.value) && (r.Raised? ==> o == Fail(r.error))
    {
      if recordType == DwcRecord && variant == Package {
        o := ProcessDwcElement(path.base.name, Replace(data, "||", "|"));
      } else {
        o := StoreValues(path, data);
      }
    }

    /** `add_data` past the package's DarwinCore branch: the text is split
      into its values first. */
    method StoreValues(path: Path, data: string) returns (o: Outcome)
      requires !(recordType == DwcRecord && variant == Package)
      requires !StoreStep(recordType, variant, Snapshot(), path, data).Undefined?
      modifies this
      ensures var r := StoreStep(recordType, variant, old(Snapshot()), path, data);
              (r.Done? ==> o == Pass && Snapshot() == r.value) && (r.Raised? ==> o == Fail(r.error))
    {
      StoreDivided(recordType, variant, Snapshot(), path, data);
      var vals := DataValues(data, path.sectioned);
      if recordType == DwcRecord {
        o := ProcessDwcElement(path.base.name, FirstValue(vals));
      } else {
        o := ProcessModsElement(path, vals);
      }
    }

    /** `add_data(mods_loc, data)` */
    method AddData(loc: string, data: string) returns (o: Outcome)
      requires !AddDataStep(recordType, variant, Snapshot(), loc, data).Undefined?
      modifies this
      ensures var r := AddDataStep(recordType, variant, old(Snapshot()), loc, data);
              (r.Done? ==> o == Pass && Snapshot() == r.value) && (r.Raised? ==> o == Fail(r.error))
    {
      var parsed := ParseLocation(loc);
      if parsed.Failure? {
        return Fail(parsed.error);
      }
      o := Store(parsed.value, data);
    }

    /** The loop of `Mapper.__init__` over the field data. */
    method AddFields(fields: seq<FieldDatum>) returns (o: Outcome)
      requires !RunFields(recordType, variant, Snapshot(), fields).Undefined?
      modifies this
      ensures var r := RunFields(recordType, variant, old(Snapshot()), fields);
              (r.Done? ==> o == Pass && Snapshot() == r.value) && (r.Raised? ==> o == Fail(r.error))
    {
      ghost var whole := RunFields(recordType, variant, Snapshot(), fields);
      var i := 0;
      while i < |fields|
        invariant 0 <= i <= |fields|
        invariant whole == RunFields(recordType, variant, Snapshot(), fields[i..])
      {
        RunFieldsCons(recordType, variant, Snapshot(), fields, i, whole);
        o := AddData(fields[i].path, fields[i].data);
        if o.Fail? {
          return;
        }
        i := i + 1;
      }
      return Pass;
    }
  }

  /** `Mapper(record_type, field_data, parent_mods)`: a new mapper, then
      every field in order. */
  method NewMapper(t: RecordType, v: Variant, fields: seq<FieldDatum>, parent: Option<Mods>)
    returns (m: Mapper, o: Outcome)
    requires !RunFields(t, v, Initial(t, parent), fields).Undefined?
    ensures var r := RunFields(t, v, Initial(t, parent), fields);
            (r.Done? ==> o == Pass && m.Snapshot() == r.value) && (r.Raised? ==> o == Fail(r.error))
  {
    m := new Mapper(t, v, parent);
    o := m.AddFields(fields);
  }
}
