/** Properties of the mapper's steps: what a step may change, how the
    first touch of a group clears and later ones append, how a whole
    field list keeps the parent's content outside the parts it writes,
    and how DarwinCore values are stored. */
module MappingLaws {
  import opened Common
  import opened Text
  import opened Location
  import opened Divisions
  import opened Document
  import opened Mapping

  /** The group a branch's first assignment clears, if any. */
  function GroupOf(r: Route): Option<Group> {
    match r
    case ToId => None
    case ToNames => Some(NamesGroup)
    case ToNamePart => None
    case ToTitles => Some(TitlesGroup)
    case ToLanguages => Some(LanguagesGroup)
    case ToGenres => Some(GenresGroup)
    case ToOrigin => Some(OriginGroup)
    case ToPhysical => Some(PhysicalGroup)
    case ToResourceType => Some(ResourceGroup)
    case ToAudience => Some(AudienceGroup)
    case ToAbstract => Some(AbstractGroup)
    case ToNotes => Some(NotesGroup)
    case ToSubjects => Some(SubjectsGroup)
    case ToIdentifiers => Some(IdentifiersGroup)
    case ToLocations => Some(LocationsGroup)
    case ToRelated => Some(RelatedGroup)
  }

  /** The parts of the record a branch may write. */
  function RouteFields(r: Route): set<Field> {
    match r
    case ToId => {IdField}
    case ToNames => {NamesField}
    case ToNamePart => {NamesField}
    case ToTitles => {TitlesField}
    case ToLanguages => {LanguagesField}
    case ToGenres => {GenresField}
    case ToOrigin => {OriginField}
    case ToPhysical => {PhysicalField}
    case ToResourceType => {ResourceField}
    case ToAudience => {ResourceField, AudiencesField}
    case ToAbstract => {AbstractField}
    case ToNotes => {NotesField}
    case ToSubjects => {SubjectsField}
    case ToIdentifiers => {IdentifiersField}
    case ToLocations => {LocationsField}
    case ToRelated => {RelatedField}
  }

  /** The parts of the record an element may write. */
  function Written(v: Variant, name: string): set<Field> {
    match RouteOf(v, name)
    case Some(r) => RouteFields(r)
    case None => {}
  }

  /** The groups an element's step marks cleared. */
  function Marked(v: Variant, name: string): set<Group> {
    match RouteOf(v, name)
    case Some(r) => (match GroupOf(r) case Some(g) => {g} case None => {})
    case None => {}
  }

  // ---------------------------------------------------------------------
  // One MODS step
  // ---------------------------------------------------------------------

  /** The inner origin-info walk only ever adds dates and places after
      the ones already there, and leaves the label alone. */
  lemma {:induction false} OriginWalkGrows(o: OriginInfo, sections: seq<seq<Element>>, divs: seq<string>, index: nat)
    requires OriginWalk(o, sections, divs, index).Done?
    ensures var o' := OriginWalk(o, sections, divs, index).value;
            o.dates <= o'.dates && o.places <= o'.places && o'.displayLabel == o.displayLabel
    decreases |sections| - index
  {
    if index < |sections| && index < |divs| && sections[index] != [] {
      var e := sections[index][0];
      var div := divs[index];
      var kind := DateKindOf(e.name);
      if divs[index] == [] {
        OriginWalkGrows(o, sections, divs, index + 1);
      } else if kind.Some? {
        OriginWalkGrows(o.(dates := o.dates + [DateOf(kind.value, div, e.attributes)]), sections, divs, index + 1);
      } else if e.name == "mods:place" {
        OriginWalkGrows(o.(places := o.places + [div]), sections, divs, index + 1);
      } else if e.name == "mods:publisher" {
        OriginWalkGrows(o.(publisher := Some(div)), sections, divs, index + 1);
      }
    }
  }

  /** The only exception origin info raises is the unhandled element. */
  lemma {:induction false} OriginWalkRaises(o: OriginInfo, sections: seq<seq<Element>>, divs: seq<string>, index: nat)
    requires OriginWalk(o, sections, divs, index).Raised?
    ensures OriginWalk(o, sections, divs, index).error.UnhandledOriginInfo?
    decreases |sections| - index
  {
    if index < |sections| && index < |divs| && sections[index] != [] {
      var e := sections[index][0];
      var div := divs[index];
      var kind := DateKindOf(e.name);
      if divs[index] == [] {
        OriginWalkRaises(o, sections, divs, index + 1);
      } else if kind.Some? {
        OriginWalkRaises(o.(dates := o.dates + [DateOf(kind.value, div, e.attributes)]), sections, divs, index + 1);
      } else if e.name == "mods:place" {
        OriginWalkRaises(o.(places := o.places + [div]), sections, divs, index + 1);
      } else if e.name == "mods:publisher" {
        OriginWalkRaises(o.(publisher := Some(div)), sections, divs, index + 1);
      }
    }
  }

  lemma {:induction false} OriginValuesGrows(o: OriginInfo, sections: seq<seq<Element>>, vals: seq<seq<string>>, i: nat)
    requires OriginValues(o, sections, vals, i).Done?
    ensures var o' := OriginValues(o, sections, vals, i).value;
            o.dates <= o'.dates && o.places <= o'.places && o'.displayLabel == o.displayLabel
    decreases |vals| - i
  {
    if i < |vals| {
      OriginWalkGrows(o, sections, vals[i], 0);
      OriginValuesGrows(OriginWalk(o, sections, vals[i], 0).value, sections, vals, i + 1);
    }
  }

  lemma {:induction false} OriginValuesRaises(o: OriginInfo, sections: seq<seq<Element>>, vals: seq<seq<string>>, i: nat)
    requires OriginValues(o, sections, vals, i).Raised?
    ensures OriginValues(o, sections, vals, i).error.UnhandledOriginInfo?
    decreases |vals| - i
  {
    if i < |vals| {
      match OriginWalk(o, sections, vals[i], 0)
      case Done(o') => OriginValuesRaises(o', sections, vals, i + 1);
      case Raised(_) => OriginWalkRaises(o, sections, vals[i], 0);
      case Undefined =>
    }
  }

  /** The groups a branch marks cleared. */
  function RouteMarks(r: Route): set<Group> {
    match GroupOf(r)
    case Some(g) => {g}
    case None => {}
  }

  /** A branch writes only its parts, and marks only its group cleared;
      the DarwinCore record is untouched. */
  lemma RouteStepFrame(v: Variant, r: Route, st: State, path: Path, vals: seq<seq<string>>)
    requires NonEmptyDivs(vals) && RouteStep(v, r, st, path, vals).Done?
    ensures var s := RouteStep(v, r, st, path, vals).value;
            SameExcept(st.doc, s.doc, RouteFields(r)) && s.dwc == st.dwc && s.cleared == st.cleared + RouteMarks(r)
  {
    var base, sections := path.base, path.sections;
    var out := RouteStep(v, r, st, path, vals);
    match r
    case ToId => assert out == IdStep(st, base, vals);
    case ToNames => assert out == Done(NamesStep(st, base, sections, vals));
    case ToNamePart => assert out == NamePartStep(st, base, vals);
    case ToTitles => assert out == Done(TitlesStep(st, base, sections, vals));
    case ToLanguages => assert out == LanguagesStep(st, sections, vals);
    case ToGenres => assert out == Done(GenresStep(st, base, vals));
    case ToOrigin => assert out == OriginStep(st, base, sections, vals);
    case ToPhysical => assert out == PhysicalStep(v, st, sections, vals);
    case ToResourceType => assert out == ResourceTypeStep(st, vals);
    case ToAudience => assert out == AudienceStep(st, vals);
    case ToAbstract => assert out == AbstractStep(st, vals);
    case ToNotes => assert out == Done(NotesStep(st, base, vals));
    case ToSubjects => assert out == SubjectsStep(st, base, sections, vals);
    case ToIdentifiers => assert out == Done(IdentifiersStep(st, base, vals));
    case ToLocations => assert out == LocationsStep(st, sections, vals);
    case ToRelated => assert out == RelatedStep(st, base, sections, vals);
  }

  /** A step writes only the parts of its element, and marks only its
      element's group cleared; the DarwinCore record is untouched. */
  lemma ModsStepFrame(v: Variant, st: State, path: Path, vals: seq<seq<string>>)
    requires NonEmptyDivs(vals) && ModsStep(v, st, path, vals).Done?
    ensures var s := ModsStep(v, st, path, vals).value;
            SameExcept(st.doc, s.doc, Written(v, path.base.name))
            && s.dwc == st.dwc && s.cleared == st.cleared + Marked(v, path.base.name)
  {
    RouteStepFrame(v, RouteOf(v, path.base.name).value, st, path, vals);
  }

  /** A branch of a list-valued group adds exactly one item per value,
      after what the group held if it was already cleared, and in place of
      the inherited items otherwise. */
  lemma ListGrowth(v: Variant, r: Route, st: State, path: Path, vals: seq<seq<string>>)
    requires NonEmptyDivs(vals) && RouteStep(v, r, st, path, vals).Done?
    requires GroupOf(r).Some? && ListFieldOf(GroupOf(r).value).Some?
    ensures Appended(st, GroupOf(r).value, RouteStep(v, r, st, path, vals).value, |vals|)
  {
    ListRoutes(r);
    if r == ToNames || r == ToTitles || r == ToLanguages {
      NameTitleLanguageGrowth(v, r, st, path, vals);
    } else if r == ToGenres || r == ToNotes || r == ToIdentifiers {
      GenreNoteIdentifierGrowth(v, r, st, path, vals);
    } else {
      SubjectLocationRelatedGrowth(v, r, st, path, vals);
    }
  }

  /** The branches whose group is list-valued. */
  lemma ListRoutes(r: Route)
    requires GroupOf(r).Some? && ListFieldOf(GroupOf(r).value).Some?
    ensures r in {ToNames, ToTitles, ToLanguages, ToGenres, ToNotes, ToIdentifiers, ToSubjects, ToLocations, ToRelated}
  {
  }

  /** `ListGrowth` for names, titles and languages. */
  lemma NameTitleLanguageGrowth(v: Variant, r: Route, st: State, path: Path, vals: seq<seq<string>>)
    requires NonEmptyDivs(vals) && RouteStep(v, r, st, path, vals).Done?
    requires r == ToNames || r == ToTitles || r == ToLanguages
    ensures Appended(st, GroupOf(r).value, RouteStep(v, r, st, path, vals).value, |vals|)
  {
    var base, sections := path.base, path.sections;
    var out := RouteStep(v, r, st, path, vals);
    match r
    case ToNames => assert out == Done(NamesStep(st, base, sections, vals));
    case ToTitles => assert out == Done(TitlesStep(st, base, sections, vals));
    case ToLanguages => assert out == LanguagesStep(st, sections, vals);
  }

  /** `ListGrowth` for genres, notes and identifiers. */
  lemma GenreNoteIdentifierGrowth(v: Variant, r: Route, st: State, path: Path, vals: seq<seq<string>>)
    requires NonEmptyDivs(vals) && RouteStep(v, r, st, path, vals).Done?
    requires r == ToGenres || r == ToNotes || r == ToIdentifiers
    ensures Appended(st, GroupOf(r).value, RouteStep(v, r, st, path, vals).value, |vals|)
  {
    var base, sections := path.base, path.sections;
    var out := RouteStep(v, r, st, path, vals);
    match r
    case ToGenres => assert out == Done(GenresStep(st, base, vals));
    case ToNotes => assert out == Done(NotesStep(st, base, vals));
    case ToIdentifiers => assert out == Done(IdentifiersStep(st, base, vals));
  }

  /** `ListGrowth` for subjects, locations and related items. */
  lemma SubjectLocationRelatedGrowth(v: Variant, r: Route, st: State, path: Path, vals: seq<seq<string>>)
    requires NonEmptyDivs(vals) && RouteStep(v, r, st, path, vals).Done?
    requires r == ToSubjects || r == ToLocations || r == ToRelated
    ensures Appended(st, GroupOf(r).value, RouteStep(v, r, st, path, vals).value, |vals|)
  {
    var base, sections := path.base, path.sections;
    var out := RouteStep(v, r, st, path, vals);
    match r
    case ToSubjects => assert out == SubjectsStep(st, base, sections, vals);
    case ToLocations => assert out == LocationsStep(st, sections, vals);
    case ToRelated => assert out == RelatedStep(st, base, sections, vals);
  }

  /** Two columns for the same list element: the first replaces the
      inherited items, the second appends after the first. */
  lemma TwoNoteColumns(st: State, b1: Element, v1: seq<seq<string>>, b2: Element, v2: seq<seq<string>>)
    requires NonEmptyDivs(v1) && NonEmptyDivs(v2) && NotesGroup !in st.cleared
    ensures NotesStep(NotesStep(st, b1, v1), b2, v2).doc.notes == NotesOf(b1, v1) + NotesOf(b2, v2)
  {
  }

  /** The first `targetAudience` sets the resource type to None but
      keeps the inherited audiences; every one appends its text. */
  lemma AudienceRule(st: State, vals: seq<seq<string>>)
    requires NonEmptyDivs(vals) && AudienceStep(st, vals).Done?
    ensures var s := AudienceStep(st, vals).value;
            s.doc.targetAudiences == st.doc.targetAudiences + [vals[0][0]]
            && s.doc.resourceType == (if AudienceGroup in st.cleared then st.doc.resourceType else None)
            && AudienceGroup in s.cleared
  {
  }

  /** A single-valued part holds the last value written to it. */
  lemma LastResourceTypeWins(st: State, v1: seq<seq<string>>, v2: seq<seq<string>>)
    requires NonEmptyDivs(v1) && NonEmptyDivs(v2) && v1 != [] && v2 != []
    ensures ResourceTypeStep(ResourceTypeStep(st, v1).value, v2).value.doc.resourceType == Some(v2[0][0])
  {
  }

  /** Only the first value's divisions reach the physical description. */
  lemma PhysicalFirstValueOnly(v: Variant, st: State, sections: seq<seq<Element>>, vals: seq<seq<string>>)
    requires vals != []
    ensures PhysicalStep(v, st, sections, vals) == PhysicalStep(v, st, sections, vals[..1])
  {
  }

  /** The package reads a missing `digitalOrigin` division from the
      element's literal; the script fails there. */
  lemma DigitalOriginFallback(p: PhysicalDescription, e: Element)
    requires e.name == "mods:digitalOrigin"
    ensures PhysicalWalk(Package, p, [[e]], [], 0) == Done(p.(digitalOrigin := e.literal))
    ensures PhysicalWalk(Script, p, [[e]], [], 0).Undefined?
  {
  }

  /** A handled element raises only from origin info, and only the
      unhandled-origin-info exception. */
  lemma RouteStepRaises(v: Variant, r: Route, st: State, path: Path, vals: seq<seq<string>>)
    requires NonEmptyDivs(vals) && RouteStep(v, r, st, path, vals).Raised?
    ensures r == ToOrigin && RouteStep(v, r, st, path, vals).error.UnhandledOriginInfo?
  {
    var base, sections := path.base, path.sections;
    var out := RouteStep(v, r, st, path, vals);
    match r
    case ToOrigin =>
      assert out == OriginStep(st, base, sections, vals);
      var s1 := Touch(st, OriginGroup);
      var o := s1.doc.originInfo.value;
      var shown := Get(base.attributes, "displayLabel");
      var o1 := if shown.Some? then o.(displayLabel := shown) else o;
      OriginValuesRaises(o1, sections, vals, 0);
    case ToPhysical =>
      assert out == PhysicalStep(v, st, sections, vals);
      var s1 := Touch(st, PhysicalGroup);
      PhysicalWalkNeverRaises(v, s1.doc.physical.value, sections, vals[0], 0);
    case _ =>
  }

  /** The physical-description walk never raises. */
  lemma {:induction false} PhysicalWalkNeverRaises(v: Variant, p: PhysicalDescription, sections: seq<seq<Element>>,
                                                   divs: seq<string>, index: nat)
    ensures !PhysicalWalk(v, p, sections, divs, index).Raised?
    decreases |sections| - index
  {
    if index < |sections| && sections[index] != [] {
      var e := sections[index][0];
      if e.name == "mods:extent" {
        if index < |divs| {
          PhysicalWalkNeverRaises(v, p.(extent := Some(divs[index])), sections, divs, index + 1);
        }
      } else if e.name == "mods:digitalOrigin" {
        if index < |divs| {
          PhysicalWalkNeverRaises(v, p.(digitalOrigin := Some(divs[index])), sections, divs, index + 1);
        } else if v == Package {
          PhysicalWalkNeverRaises(v, p.(digitalOrigin := e.literal), sections, divs, index + 1);
        }
      } else if e.name == "mods:note" {
        if index < |divs| {
          PhysicalWalkNeverRaises(v, p.(note := Some(divs[index])), sections, divs, index + 1);
        }
      } else {
        PhysicalWalkNeverRaises(v, p, sections, divs, index + 1);
      }
    }
  }

  /** Exactly the elements outside the routing table raise "not handled";
      the handled ones can raise only from origin info. */
  lemma UnknownModsRaises(v: Variant, st: State, path: Path, vals: seq<seq<string>>)
    requires NonEmptyDivs(vals)
    ensures ModsStep(v, st, path, vals) == Raised(UnhandledElement(path.base.name))
            <==> !HandledMods(v, path.base.name)
    ensures HandledMods(v, path.base.name) && ModsStep(v, st, path, vals).Raised? ==>
            path.base.name == "mods:originInfo" && ModsStep(v, st, path, vals).error.UnhandledOriginInfo?
  {
    var route := RouteOf(v, path.base.name);
    if route.Some? {
      assert ModsStep(v, st, path, vals) == RouteStep(v, route.value, st, path, vals);
      if RouteStep(v, route.value, st, path, vals).Raised? {
        RouteStepRaises(v, route.value, st, path, vals);
        OriginRouted(v, path.base.name);
      }
    }
  }

  /** Only `mods:originInfo` is routed to the origin-info branch. */
  lemma OriginRouted(v: Variant, name: string)
    requires RouteOf(v, name) == Some(ToOrigin)
    ensures name == "mods:originInfo"
  {
  }

  /** The script has no `targetAudience` branch. */
  lemma ScriptHasNoAudience(st: State, path: Path, vals: seq<seq<string>>)
    requires NonEmptyDivs(vals) && path.base.name == "mods:targetAudience"
    ensures ModsStep(Script, st, path, vals) == Raised(UnhandledElement("mods:targetAudience"))
    ensures ModsStep(Package, st, path, vals).Raised? == false
  {
    UnknownModsRaises(Script, st, path, vals);
    UnknownModsRaises(Package, st, path, vals);
  }

  // ---------------------------------------------------------------------
  // Items
  // ---------------------------------------------------------------------

  /** A role term's literal wins over the division: the division does not
      matter. */
  lemma RoleLiteralWins(n: Name, e: Element, d1: Option<string>, d2: Option<string>)
    requires e.name == "mods:roleTerm" && Truthy(e.literal)
    ensures NameElements(n, [e], d1) == NameElements(n, [e], d2)
    ensures NameElements(n, [e], d1).roles
            == n.roles + [Role(e.literal.value, Get(e.attributes, "type"), Get(e.attributes, "authority"))]
  {
  }

  /** A role term without literal or division adds no role; a name part
      always adds a part, with the division (possibly None) as text. */
  lemma EmptyRoleSkipped(n: Name, e: Element, div: Option<string>)
    requires e.name == "mods:roleTerm" && !Truthy(e.literal) && !Truthy(div)
    ensures NameElements(n, [e], div) == n
  {
  }

  /** In a hierarchical geography the country is the `mods:country`
      element's literal, whatever the division says; the division only
      ever becomes the state. */
  lemma GeographyCountryFromLiteral(section: seq<Element>, d1: string, d2: string)
    requires GeographicSectionOk(section) && section[1].name == "mods:country"
    ensures GeographicOf(section, d1).country == GeographicOf(section, d2).country == section[1].literal
    ensures GeographicOf(section, d1).state.Some? <==> section[2].name == "mods:state"
  {
  }

  // ---------------------------------------------------------------------
  // Pieces of a value
  // ---------------------------------------------------------------------

  /** Every piece is non-empty and has no white space at either end. */
  lemma {:induction false} KeptClean(parts: seq<string>)
    ensures forall k :: 0 <= k < |Kept(parts)| ==>
              Kept(parts)[k] != [] && !IsSpace(Kept(parts)[k][0]) && !IsSpace(Kept(parts)[k][|Kept(parts)[k]| - 1])
  {
    if parts != [] {
      KeptClean(parts[1..]);
    }
  }

  /** Keeping pieces distributes over concatenation: every piece is kept
      or dropped on its own, and the kept ones stay in order. */
  lemma {:induction false} KeptAppend(a: seq<string>, b: seq<string>)
    ensures Kept(a + b) == Kept(a) + Kept(b)
    decreases |a|
  {
    if a == [] {
      assert a + b == b;
    } else {
      assert (a + b)[0] == a[0] && (a + b)[1..] == a[1..] + b;
      KeptAppend(a[1..], b);
    }
  }

  /** One piece is kept, stripped, exactly when it is not blank. */
  lemma KeptOne(p: string)
    ensures Kept([p]) == if Strip(p) == [] then [] else [Strip(p)]
  {
    assert [p][1..] == [];
  }

  /** A value without `||` is one piece, its stripped text, unless that
      is empty. */
  lemma PiecesOfPlain(data: string)
    requires FindSubFrom(data, "||", 0) < 0
    ensures Pieces(data) == if Strip(data) == [] then [] else [Strip(data)]
  {
    assert Split(data, "||") == [data];
  }

  /** A notes column writes one note per piece, in order, each holding its
      piece's first division. */
  lemma NotesPerPiece(v: Variant, st: State, path: Path, data: string)
    requires StoreStep(ModsRecord, v, st, path, data).Done?
    requires path.base.name == "mods:note" && NotesGroup in st.cleared
    ensures var pieces := Pieces(data);
            var notes := StoreStep(ModsRecord, v, st, path, data).value.doc.notes;
            Divisible(pieces, path.sectioned)
            && |notes| == |st.doc.notes| + |pieces|
            && notes[..|st.doc.notes|] == st.doc.notes
            && forall k :: 0 <= k < |pieces| ==> notes[|st.doc.notes| + k].text == DataDivs(pieces[k], path.sectioned)[0]
  {
    var pieces := Pieces(data);
    StoreMods(v, st, path, data);
    var vals := Divided(pieces, path.sectioned);
    NotesRoute(v, st, path, vals);
    var added := NotesOf(path.base, vals);
    var notes := NotesStep(st, path.base, vals).doc.notes;
    assert notes == st.doc.notes + added;
    forall k | 0 <= k < |pieces|
      ensures notes[|st.doc.notes| + k].text == DataDivs(pieces[k], path.sectioned)[0]
    {
      assert notes[|st.doc.notes| + k] == added[k] == NoteItem(path.base, vals[k]);
    }
  }

  /** A MODS record stores a cell's values through `_process_mods_element`. */
  lemma StoreMods(v: Variant, st: State, path: Path, data: string)
    requires StoreStep(ModsRecord, v, st, path, data).Done?
    ensures Divisible(Pieces(data), path.sectioned)
    ensures NonEmptyDivs(Divided(Pieces(data), path.sectioned))
    ensures StoreStep(ModsRecord, v, st, path, data) == ModsStep(v, st, path, Divided(Pieces(data), path.sectioned))
  {
    ValuesNonEmpty(Pieces(data), path.sectioned);
  }

  /** `mods:note` is routed to the notes branch. */
  lemma NotesRoute(v: Variant, st: State, path: Path, vals: seq<seq<string>>)
    requires NonEmptyDivs(vals) && path.base.name == "mods:note"
    ensures ModsStep(v, st, path, vals) == Done(NotesStep(st, path.base, vals))
  {
    NoteRouted(v);
    assert ModsStep(v, st, path, vals) == RouteStep(v, ToNotes, st, path, vals);
  }

  lemma NoteRouted(v: Variant)
    ensures RouteOf(v, "mods:note") == Some(ToNotes)
  {
  }

  // ---------------------------------------------------------------------
  // A whole field list
  // ---------------------------------------------------------------------

  /** The parts the fields' elements may write. */
  function WrittenBy(v: Variant, fields: seq<FieldDatum>): set<Field>
    decreases |fields|
  {
    if fields == [] then {}
    else
      (match Parse(fields[0].path)
       case Success(p) => Written(v, p.base.name)
       case Failure(_) => {})
      + WrittenBy(v, fields[1..])
  }

  lemma AddDataFrame(t: RecordType, v: Variant, st: State, loc: string, data: string)
    requires AddDataStep(t, v, st, loc, data).Done?
    ensures Parse(loc).Success?
    ensures SameExcept(st.doc, AddDataStep(t, v, st, loc, data).value.doc,
                       if t == ModsRecord then Written(v, Parse(loc).value.base.name) else {})
  {
    var path := Parse(loc).value;
    if t == ModsRecord {
      var pieces := Pieces(data);
      ValuesNonEmpty(pieces, path.sectioned);
      ModsStepFrame(v, st, path, Divided(pieces, path.sectioned));
    }
  }

  /** A mapper run changes the record only in the parts its fields'
      elements write: every other part keeps what the parent held, and a
      DarwinCore run leaves the MODS record alone. */
  lemma {:induction false} RunFieldsFrame(t: RecordType, v: Variant, st: State, fields: seq<FieldDatum>)
    requires RunFields(t, v, st, fields).Done?
    ensures SameExcept(st.doc, RunFields(t, v, st, fields).value.doc, if t == ModsRecord then WrittenBy(v, fields) else {})
    decreases |fields|
  {
    if fields != [] {
      var r := AddDataStep(t, v, st, fields[0].path, fields[0].data);
      AddDataFrame(t, v, st, fields[0].path, fields[0].data);
      RunFieldsFrame(t, v, r.value, fields[1..]);
      var here := if t == ModsRecord then Written(v, Parse(fields[0].path).value.base.name) else {};
      var later := if t == ModsRecord then WrittenBy(v, fields[1..]) else {};
      SameExceptTrans(st.doc, r.value.doc, RunFields(t, v, r.value, fields[1..]).value.doc, here, later);
    }
  }

  /** The parent's record, seen through a MODS run: untouched parts are
      the parent's. */
  lemma ParentKept(v: Variant, parent: Mods, fields: seq<FieldDatum>)
    requires RunFields(ModsRecord, v, Initial(ModsRecord, Some(parent)), fields).Done?
    ensures SameExcept(parent, RunFields(ModsRecord, v, Initial(ModsRecord, Some(parent)), fields).value.doc,
                       WrittenBy(v, fields))
  {
    RunFieldsFrame(ModsRecord, v, Initial(ModsRecord, Some(parent)), fields);
  }

  /** Running two field lists one after the other is running them
      joined. */
  lemma {:induction false} RunFieldsAppend(t: RecordType, v: Variant, st: State, f1: seq<FieldDatum>, f2: seq<FieldDatum>)
    ensures RunFields(t, v, st, f1 + f2)
            == match RunFields(t, v, st, f1)
               case Done(s) => RunFields(t, v, s, f2)
               case Raised(e) => Raised(e)
               case Undefined => Undefined
    decreases |f1|
  {
    if f1 == [] {
      assert f1 + f2 == f2;
    } else {
      assert (f1 + f2)[1..] == f1[1..] + f2;
      match AddDataStep(t, v, st, f1[0].path, f1[0].data)
      case Done(s') => RunFieldsAppend(t, v, s', f1[1..], f2);
      case Raised(_) =>
      case Undefined =>
    }
  }

  // ---------------------------------------------------------------------
  // DarwinCore
  // ---------------------------------------------------------------------

  /** Writing a field twice keeps the second text. */
  lemma DwcLastWriteWins(v: Variant, st: State, name: string, a: string, b: string)
    requires HandledDwc(v, name)
    ensures DwcStore(v, DwcStore(v, st, name, a).value, name, b) == DwcStore(v, st, name, b)
  {
    assert st.dwc[name := a][name := b] == st.dwc[name := b];
  }

  /** A store changes one key of the DarwinCore record and nothing else;
      an unhandled name raises. */
  lemma DwcStoreFrame(v: Variant, st: State, name: string, text: string)
    ensures DwcStore(v, st, name, text).Raised? <==> !HandledDwc(v, name)
    ensures DwcStore(v, st, name, text).Done? ==>
            var s := DwcStore(v, st, name, text).value;
            s.doc == st.doc && s.cleared == st.cleared && name in s.dwc && s.dwc[name] == text
            && forall k :: k != name ==> (k in s.dwc <==> k in st.dwc) && (k in st.dwc ==> s.dwc[k] == st.dwc[k])
  {
  }

  /** The script stores a subset of the package's fields, lacking exactly
      `recordNumber`, `locality` and `municipality`. */
  lemma ScriptDwcFields(name: string)
    ensures HandledDwc(Script, name) ==> HandledDwc(Package, name)
    ensures HandledDwc(Package, name) && !HandledDwc(Script, name)
            <==> name in {"dwc:recordNumber", "dwc:locality", "dwc:municipality"}
  {
  }

  /** In the package a DarwinCore value is its `||` pieces joined with `|`,
      unstripped and with empty pieces kept. */
  lemma DwcPackageText(st: State, loc: string, data: string)
    requires AddDataStep(DwcRecord, Package, st, loc, data).Done?
    ensures Parse(loc).Success?
    ensures AddDataStep(DwcRecord, Package, st, loc, data).value.dwc
            == st.dwc[Parse(loc).value.base.name := Join(Split(data, "||"), "|")]
  {
    ReplaceIsSplitJoin(data, "||", "|");
  }

  /** In the script a DarwinCore value is the first division of its first
      piece: the first non-blank `||` piece, stripped (see KeptAppend and
      KeptOne), cut at unescaped '#' when the location is sectioned. */
  lemma DwcScriptText(st: State, loc: string, data: string)
    requires AddDataStep(DwcRecord, Script, st, loc, data).Done?
    ensures Parse(loc).Success?
    ensures var path := Parse(loc).value;
            var pieces := Pieces(data);
            HandledDwc(Script, path.base.name) && pieces != []
            && Divisible(pieces, path.sectioned) && NonEmptyDivs(Divided(pieces, path.sectioned))
            && FirstValue(Divided(pieces, path.sectioned)) == DataDivs(pieces[0], path.sectioned)[0]
            && AddDataStep(DwcRecord, Script, st, loc, data).value.dwc
               == st.dwc[path.base.name := DataDivs(pieces[0], path.sectioned)[0]]
  {
    var path := Parse(loc).value;
    assert AddDataStep(DwcRecord, Script, st, loc, data) == StoreStep(DwcRecord, Script, st, path, data);
    StoreDivided(DwcRecord, Script, st, path, data);
  }

  /** In particular an unsectioned value without `||` is stored stripped. */
  lemma DwcScriptPlainText(st: State, loc: string, data: string)
    requires AddDataStep(DwcRecord, Script, st, loc, data).Done?
    requires Parse(loc).Success? && !Parse(loc).value.sectioned && FindSubFrom(data, "||", 0) < 0
    ensures HandledDwc(Script, Parse(loc).value.base.name) && Strip(data) != []
    ensures AddDataStep(DwcRecord, Script, st, loc, data).value.dwc == st.dwc[Parse(loc).value.base.name := Strip(data)]
  {
    DwcScriptText(st, loc, data);
    PiecesOfPlain(data);
  }
}
