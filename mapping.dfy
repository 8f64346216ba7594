/** What `Mapper.add_data` does to a record, as functions: a MODS value is
    cut into pieces at `||`, each piece stripped, empty pieces dropped and
    each remaining piece divided at unescaped `#`; the base element's name
    then routes the pieces to one part of the record. The first assignment
    to a part in a Mapper replaces what the parent record held there;
    later ones add to it. A DarwinCore value is stored under its element's
    name, the last write winning. */
module Mapping {
  import opened Common
  import opened Text
  import opened Location
  import opened Divisions
  import opened Document

  datatype RecordType = ModsRecord | DwcRecord

  /** What one step of the source comes to: a value, a raised exception,
      or neither, because the source fails with IndexError or TypeError or
      never returns. The last is what callers must rule out. */
  datatype Run<T> = Done(value: T) | Raised(error: Error) | Undefined

  /** The keys of `_cleared_fields`, one per MODS element that clears. */
  datatype Group =
    | NamesGroup | TitlesGroup | LanguagesGroup | GenresGroup | OriginGroup | PhysicalGroup
    | ResourceGroup | AudienceGroup | AbstractGroup | NotesGroup | SubjectsGroup | IdentifiersGroup
    | LocationsGroup | RelatedGroup

  /** A Mapper's state: the MODS record, the DarwinCore record (field name
      to text) and the groups already cleared. */
  datatype State = State(doc: Mods, dwc: map<string, string>, cleared: set<Group>)

  /** `attributes.get(key)` */
  function Get(attrs: Attributes, key: string): Option<string> {
    if key in attrs then Some(attrs[key]) else None
  }

  /** Python truthiness of an optional text. */
  predicate Truthy(o: Option<string>) {
    o.Some? && o.value != []
  }

  // ---------------------------------------------------------------------
  // Cutting a value into pieces and divisions
  // ---------------------------------------------------------------------

  /** `[p.strip() for p in parts]` without the empty results. */
  function Kept(parts: seq<string>): (r: seq<string>)
    ensures |r| <= |parts|
    ensures forall k :: 0 <= k < |r| ==> r[k] != []
  {
    if parts == [] then []
    else (if Strip(parts[0]) == [] then [] else [Strip(parts[0])]) + Kept(parts[1..])
  }

  /** The pieces of a MODS value. */
  function Pieces(data: string): seq<string> {
    Kept(Split(data, "||"))
  }

  /** Every piece can be divided (`_get_data_divs` returns). */
  predicate Divisible(pieces: seq<string>, sectioned: bool) {
    sectioned ==> forall k :: 0 <= k < |pieces| ==> DivsDefined(pieces[k])
  }

  /** `[self._get_data_divs(p, sectioned) for p in pieces]` */
  function Divided(pieces: seq<string>, sectioned: bool): (r: seq<seq<string>>)
    requires Divisible(pieces, sectioned)
    ensures |r| == |pieces|
    ensures forall k :: 0 <= k < |r| ==> r[k] == DataDivs(pieces[k], sectioned)
  {
    if pieces == [] then [] else [DataDivs(pieces[0], sectioned)] + Divided(pieces[1..], sectioned)
  }

  /** Every value and every division list is non-empty. */
  predicate NonEmptyDivs(vals: seq<seq<string>>) {
    forall k :: 0 <= k < |vals| ==> |vals[k]| > 0
  }

  // ---------------------------------------------------------------------
  // Clearing
  // ---------------------------------------------------------------------

  /** The parts of the record a group's element writes. */
  function GroupFields(g: Group): set<Field> {
    match g
    case NamesGroup => {NamesField}
    case TitlesGroup => {TitlesField}
    case LanguagesGroup => {LanguagesField}
    case GenresGroup => {GenresField}
    case OriginGroup => {OriginField}
    case PhysicalGroup => {PhysicalField}
    case ResourceGroup => {ResourceField}
    case AudienceGroup => {ResourceField, AudiencesField}
    case AbstractGroup => {AbstractField}
    case NotesGroup => {NotesField}
    case SubjectsGroup => {SubjectsField}
    case IdentifiersGroup => {IdentifiersField}
    case LocationsGroup => {LocationsField}
    case RelatedGroup => {RelatedField}
  }

  /** The list-valued part a group appends to. */
  function ListFieldOf(g: Group): Option<Field> {
    match g
    case NamesGroup => Some(NamesField)
    case TitlesGroup => Some(TitlesField)
    case LanguagesGroup => Some(LanguagesField)
    case GenresGroup => Some(GenresField)
    case NotesGroup => Some(NotesField)
    case SubjectsGroup => Some(SubjectsField)
    case IdentifiersGroup => Some(IdentifiersField)
    case LocationsGroup => Some(LocationsField)
    case RelatedGroup => Some(RelatedField)
    case _ => None
  }

  /** After the step from `st` to `s`, the list part of group `g` holds
      `n` more items than after the group's touch: the inherited items
      are gone if this was the first touch, kept as a prefix otherwise. */
  predicate Appended(st: State, g: Group, s: State, n: nat) {
    ListFieldOf(g).Some? &&
    var f := ListFieldOf(g).value;
    Size(s.doc, f) == (if g in st.cleared then Size(st.doc, f) else 0) + n
    && (g in st.cleared ==> Prefix(st.doc, s.doc, f))
  }

  /** What the first touch of a group puts in its part of the record. */
  function Cleared(d: Mods, g: Group): Mods {
    match g
    case NamesGroup => d.(names := [])
    case TitlesGroup => d.(titles := [])
    case LanguagesGroup => d.(languages := [])
    case GenresGroup => d.(genres := [])
    case OriginGroup => d.(originInfo := Some(EmptyOrigin))
    case PhysicalGroup => d.(physical := Some(EmptyPhysical))
    case ResourceGroup => d.(resourceType := None)
    case AudienceGroup => d.(resourceType := None)
    case AbstractGroup => d.(abstractText := None)
    case NotesGroup => d.(notes := [])
    case SubjectsGroup => d.(subjects := [])
    case IdentifiersGroup => d.(identifiers := [])
    case LocationsGroup => d.(locations := [])
    case RelatedGroup => d.(relatedItems := [])
  }

  /** `if not self._cleared_fields.get(key): <clear>; self._cleared_fields[key] = True` */
  function Touch(st: State, g: Group): (s: State)
    ensures SameExcept(st.doc, s.doc, GroupFields(g)) && s.dwc == st.dwc && s.cleared == st.cleared + {g}
    ensures g in st.cleared ==> s == st
  {
    if g in st.cleared then st else State(Cleared(st.doc, g), st.dwc, st.cleared + {g})
  }

  // ---------------------------------------------------------------------
  // Names (`_add_name_data`)
  // ---------------------------------------------------------------------

  /** The elements of one section, given the section's division. */
  function NameElements(n: Name, elems: seq<Element>, div: Option<string>): Name
    decreases |elems|
  {
    if elems == [] then n
    else
      var e := elems[0];
      var a := e.attributes;
      var n' :=
        if e.name == "mods:namePart" then n.(parts := n.parts + [NamePart(div, Get(a, "type"))])
        else if e.name == "mods:roleTerm" then
          (if Truthy(e.literal) then n.(roles := n.roles + [Role(e.literal.value, Get(a, "type"), Get(a, "authority"))])
           else if Truthy(div) then n.(roles := n.roles + [Role(div.value, Get(a, "type"), Get(a, "authority"))])
           else n)
        else n;
      NameElements(n', elems[1..], div)
  }

  /** The for-loop over the sections: a section without a (stripped,
      non-empty) division is skipped unless it is a `mods:role`. */
  function NameSections(n: Name, sections: seq<seq<Element>>, divs: seq<string>, index: nat): Name
    decreases |sections| - index
  {
    if index >= |sections| then n
    else
      var div := if index < |divs| then Some(Strip(divs[index])) else None;
      var section := sections[index];
      var skip := !Truthy(div) && (section == [] || section[0].name != "mods:role");
      NameSections(if skip then n else NameElements(n, section, div), sections, divs, index + 1)
  }

  function NameItem(base: Element, sections: seq<seq<Element>>, divs: seq<string>): Name {
    NameSections(Name(Get(base.attributes, "type"), [], []), sections, divs, 0)
  }

  function NamesOf(base: Element, sections: seq<seq<Element>>, vals: seq<seq<string>>): (r: seq<Name>)
    ensures |r| == |vals|
    ensures forall k :: 0 <= k < |r| ==> r[k] == NameItem(base, sections, vals[k])
  {
    if vals == [] then []
    else NamesOf(base, sections, vals[..|vals| - 1]) + [NameItem(base, sections, vals[|vals| - 1])]
  }

  // ---------------------------------------------------------------------
  // Titles (`_add_title_data`)
  // ---------------------------------------------------------------------

  function TitleElements(t: TitleInfo, elems: seq<Element>, div: string): TitleInfo
    decreases |elems|
  {
    if elems == [] then t
    else
      var n := elems[0].name;
      var t' :=
        if n == "mods:title" then t.(title := Some(div))
        else if n == "mods:partName" then t.(partName := Some(div))
        else if n == "mods:partNumber" then t.(partNumber := Some(div))
        else if n == "mods:nonSort" then t.(nonSort := Some(div))
        else t;
      TitleElements(t', elems[1..], div)
  }

  /** `for section, div in zip(location_sections, data_divs)` */
  function TitleSections(t: TitleInfo, sections: seq<seq<Element>>, divs: seq<string>): TitleInfo
    decreases |sections|
  {
    if sections == [] || divs == [] then t
    else TitleSections(TitleElements(t, sections[0], divs[0]), sections[1..], divs[1..])
  }

  function TitleItem(base: Element, sections: seq<seq<Element>>, divs: seq<string>): TitleInfo {
    var a := base.attributes;
    TitleSections(TitleInfo(Get(a, "type"), Get(a, "displayLabel"), None, None, None, None), sections, divs)
  }

  function TitlesOf(base: Element, sections: seq<seq<Element>>, vals: seq<seq<string>>): (r: seq<TitleInfo>)
    ensures |r| == |vals|
    ensures forall k :: 0 <= k < |r| ==> r[k] == TitleItem(base, sections, vals[k])
  {
    if vals == [] then []
    else TitlesOf(base, sections, vals[..|vals| - 1]) + [TitleItem(base, sections, vals[|vals| - 1])]
  }

  // ---------------------------------------------------------------------
  // Languages, genres, notes, identifiers: one item per value
  // ---------------------------------------------------------------------

  /** `location_sections[0][0]` exists. */
  predicate HasFirstElement(sections: seq<seq<Element>>) {
    |sections| > 0 && |sections[0]| > 0
  }

  function LanguageItem(sections: seq<seq<Element>>, divs: seq<string>): Language
    requires HasFirstElement(sections) && |divs| > 0
  {
    var a := sections[0][0].attributes;
    Language(divs[0], Get(a, "authority"), Get(a, "type"))
  }

  function LanguagesOf(sections: seq<seq<Element>>, vals: seq<seq<string>>): (r: seq<Language>)
    requires HasFirstElement(sections) && NonEmptyDivs(vals)
    ensures |r| == |vals|
    ensures forall k :: 0 <= k < |r| ==> r[k] == LanguageItem(sections, vals[k])
  {
    if vals == [] then []
    else LanguagesOf(sections, vals[..|vals| - 1]) + [LanguageItem(sections, vals[|vals| - 1])]
  }

  function GenresOf(base: Element, vals: seq<seq<string>>): (r: seq<Genre>)
    requires NonEmptyDivs(vals)
    ensures |r| == |vals|
    ensures forall k :: 0 <= k < |r| ==> r[k] == Genre(vals[k][0], Get(base.attributes, "authority"))
  {
    if vals == [] then []
    else GenresOf(base, vals[..|vals| - 1]) + [Genre(vals[|vals| - 1][0], Get(base.attributes, "authority"))]
  }

  function NoteItem(base: Element, divs: seq<string>): Note
    requires |divs| > 0
  {
    Note(divs[0], Get(base.attributes, "type"), Get(base.attributes, "displayLabel"))
  }

  function NotesOf(base: Element, vals: seq<seq<string>>): (r: seq<Note>)
    requires NonEmptyDivs(vals)
    ensures |r| == |vals|
    ensures forall k :: 0 <= k < |r| ==> r[k] == NoteItem(base, vals[k])
  {
    if vals == [] then []
    else NotesOf(base, vals[..|vals| - 1]) + [NoteItem(base, vals[|vals| - 1])]
  }

  function IdentifierItem(base: Element, divs: seq<string>): Identifier
    requires |divs| > 0
  {
    Identifier(divs[0], Get(base.attributes, "type"), Get(base.attributes, "displayLabel"))
  }

  function IdentifiersOf(base: Element, vals: seq<seq<string>>): (r: seq<Identifier>)
    requires NonEmptyDivs(vals)
    ensures |r| == |vals|
    ensures forall k :: 0 <= k < |r| ==> r[k] == IdentifierItem(base, vals[k])
  {
    if vals == [] then []
    else IdentifiersOf(base, vals[..|vals| - 1]) + [IdentifierItem(base, vals[|vals| - 1])]
  }

  // ---------------------------------------------------------------------
  // Subjects
  // ---------------------------------------------------------------------

  /** A `hierarchicalGeographic` section reads `section[1]` and, when that
      is a `mods:country`, `section[2]`. */
  predicate GeographicSectionOk(section: seq<Element>) {
    |section| >= 2 && (section[1].name == "mods:country" ==> |section| >= 3)
  }

  /** The sections zipped with the divisions can all be read. */
  predicate SubjectSectionsOk(sections: seq<seq<Element>>, divs: seq<string>) {
    forall k :: 0 <= k < |sections| && k < |divs| ==>
      |sections[k]| > 0 && (sections[k][0].name == "mods:hierarchicalGeographic" ==> GeographicSectionOk(sections[k]))
  }

  /** The country always comes from the `mods:country` element's literal
      (possibly None), and the state from the division. */
  function GeographicOf(section: seq<Element>, div: string): HierarchicalGeographic
    requires GeographicSectionOk(section)
  {
    if section[1].name == "mods:country" then
      HierarchicalGeographic(section[1].literal, if section[2].name == "mods:state" then Some(div) else None)
    else HierarchicalGeographic(None, None)
  }

  function SubjectSections(s: Subject, sections: seq<seq<Element>>, divs: seq<string>): Subject
    requires SubjectSectionsOk(sections, divs)
    decreases |sections|
  {
    if sections == [] || divs == [] then s
    else
      var section, div := sections[0], divs[0];
      var n := section[0].name;
      var s' :=
        if n == "mods:topic" then s.(topics := s.topics + [div])
        else if n == "mods:temporal" then s.(temporals := s.temporals + [div])
        else if n == "mods:geographic" then s.(geographic := Some(div))
        else if n == "mods:hierarchicalGeographic" then s.(hierarchical := Some(GeographicOf(section, div)))
        else s;
      assert SubjectSectionsOk(sections[1..], divs[1..]) by {
        forall k | 0 <= k < |sections[1..]| && k < |divs[1..]|
          ensures |sections[1..][k]| > 0
        {
          assert sections[1..][k] == sections[k + 1];
        }
      }
      SubjectSections(s', sections[1..], divs[1..])
  }

  function SubjectItem(base: Element, sections: seq<seq<Element>>, divs: seq<string>): Subject
    requires SubjectSectionsOk(sections, divs)
  {
    SubjectSections(Subject(Get(base.attributes, "authority"), [], [], None, None), sections, divs)
  }

  predicate SubjectsOk(sections: seq<seq<Element>>, vals: seq<seq<string>>) {
    forall k :: 0 <= k < |vals| ==> SubjectSectionsOk(sections, vals[k])
  }

  function SubjectsOf(base: Element, sections: seq<seq<Element>>, vals: seq<seq<string>>): (r: seq<Subject>)
    requires SubjectsOk(sections, vals)
    ensures |r| == |vals|
    ensures forall k :: 0 <= k < |r| ==> r[k] == SubjectItem(base, sections, vals[k])
  {
    if vals == [] then []
    else SubjectsOf(base, sections, vals[..|vals| - 1]) + [SubjectItem(base, sections, vals[|vals| - 1])]
  }

  // ---------------------------------------------------------------------
  // Locations
  // ---------------------------------------------------------------------

  /** A `holdingSimple` section reads `section[1]` and, when that is a
      `mods:copyInformation`, `section[2]`. */
  predicate HoldingSectionOk(section: seq<Element>) {
    |section| >= 2 && (section[1].name == "mods:copyInformation" ==> |section| >= 3)
  }

  predicate LocationSectionsOk(sections: seq<seq<Element>>, divs: seq<string>) {
    forall k :: 0 <= k < |sections| && k < |divs| ==>
      |sections[k]| > 0 && (sections[k][0].name == "mods:holdingSimple" ==> HoldingSectionOk(sections[k]))
  }

  /** A literal on the element wins over the division. */
  function LiteralOr(e: Element, div: string): string {
    if Truthy(e.literal) then e.literal.value else div
  }

  function LocationSections(l: ModsLocation, sections: seq<seq<Element>>, divs: seq<string>): ModsLocation
    requires LocationSectionsOk(sections, divs)
    decreases |sections|
  {
    if sections == [] || divs == [] then l
    else
      var section, div := sections[0], divs[0];
      var e := section[0];
      var l' :=
        if e.name == "mods:url" then l.(url := Some(LiteralOr(e, div)))
        else if e.name == "mods:physicalLocation" then l.(physical := Some(LiteralOr(e, div)))
        else if e.name == "mods:holdingSimple" then
          (if section[1].name == "mods:copyInformation" && section[2].name == "mods:note"
           then l.(holdingNote := Some(div)) else l)
        else l;
      assert LocationSectionsOk(sections[1..], divs[1..]) by {
        forall k | 0 <= k < |sections[1..]| && k < |divs[1..]|
          ensures |sections[1..][k]| > 0
        {
          assert sections[1..][k] == sections[k + 1];
        }
      }
      LocationSections(l', sections[1..], divs[1..])
  }

  predicate LocationsOk(sections: seq<seq<Element>>, vals: seq<seq<string>>) {
    forall k :: 0 <= k < |vals| ==> LocationSectionsOk(sections, vals[k])
  }

  function LocationsOf(sections: seq<seq<Element>>, vals: seq<seq<string>>): (r: seq<ModsLocation>)
    requires LocationsOk(sections, vals)
    ensures |r| == |vals|
    ensures forall k :: 0 <= k < |r| ==> r[k] == LocationSections(ModsLocation(None, None, None), sections, vals[k])
  {
    if vals == [] then []
    else LocationsOf(sections, vals[..|vals| - 1]) + [LocationSections(ModsLocation(None, None, None), sections, vals[|vals| - 1])]
  }

  // ---------------------------------------------------------------------
  // Related items
  // ---------------------------------------------------------------------

  /** `location_sections[0][0]`, and `[0][1]` after a `mods:titleInfo`, exist. */
  predicate RelatedSectionsOk(sections: seq<seq<Element>>) {
    HasFirstElement(sections) && (sections[0][0].name == "mods:titleInfo" ==> |sections[0]| >= 2)
  }

  function RelatedItemOf(base: Element, sections: seq<seq<Element>>, divs: seq<string>): RelatedItem
    requires RelatedSectionsOk(sections) && |divs| > 0
  {
    var a := base.attributes;
    var titled := sections[0][0].name == "mods:titleInfo" && sections[0][1].name == "mods:title";
    RelatedItem(Get(a, "type"), Get(a, "displayLabel"), if titled then Some(divs[0]) else None)
  }

  function RelatedOf(base: Element, sections: seq<seq<Element>>, vals: seq<seq<string>>): (r: seq<RelatedItem>)
    requires RelatedSectionsOk(sections) && NonEmptyDivs(vals)
    ensures |r| == |vals|
    ensures forall k :: 0 <= k < |r| ==> r[k] == RelatedItemOf(base, sections, vals[k])
  {
    if vals == [] then []
    else RelatedOf(base, sections, vals[..|vals| - 1]) + [RelatedItemOf(base, sections, vals[|vals| - 1])]
  }

  // ---------------------------------------------------------------------
  // Origin info (`_add_origin_info_data`, `_set_date_attributes`)
  // ---------------------------------------------------------------------

  function DateKindOf(name: string): Option<DateKind> {
    if name == "mods:dateCreated" then Some(Created)
    else if name == "mods:dateIssued" then Some(Issued)
    else if name == "mods:dateCaptured" then Some(Captured)
    else if name == "mods:dateValid" then Some(Valid)
    else if name == "mods:dateModified" then Some(Modified)
    else if name == "mods:copyrightDate" then Some(Copyright)
    else if name == "mods:dateOther" then Some(Other)
    else None
  }

  /** A date with the `encoding`, `point` and `keyDate` attributes copied. */
  function DateOf(kind: DateKind, date: string, a: Attributes): DateEntry {
    DateEntry(kind, date, Get(a, "encoding"), Get(a, "point"), Get(a, "keyDate"))
  }

  /** The inner for-loop over the sections, from `index` on: an empty
      division is skipped, an element other than the seven dates, a place
      or a publisher raises. */
  function OriginWalk(o: OriginInfo, sections: seq<seq<Element>>, divs: seq<string>, index: nat): Run<OriginInfo>
    decreases |sections| - index
  {
    if index >= |sections| then Done(o)
    else if index >= |divs| || sections[index] == [] then Undefined
    else if divs[index] == [] then OriginWalk(o, sections, divs, index + 1)
    else
      var e := sections[index][0];
      var div := divs[index];
      var kind := DateKindOf(e.name);
      if kind.Some? then OriginWalk(o.(dates := o.dates + [DateOf(kind.value, div, e.attributes)]), sections, divs, index + 1)
      else if e.name == "mods:place" then OriginWalk(o.(places := o.places + [div]), sections, divs, index + 1)
      else if e.name == "mods:publisher" then OriginWalk(o.(publisher := Some(div)), sections, divs, index + 1)
      else Raised(UnhandledOriginInfo(e.name))
  }

  /** The outer for-loop over the values, from `i` on. */
  function OriginValues(o: OriginInfo, sections: seq<seq<Element>>, vals: seq<seq<string>>, i: nat): Run<OriginInfo>
    decreases |vals| - i
  {
    if i >= |vals| then Done(o)
    else
      match OriginWalk(o, sections, vals[i], 0)
      case Done(o') => OriginValues(o', sections, vals, i + 1)
      case Raised(e) => Raised(e)
      case Undefined => Undefined
  }

  function OriginStep(st: State, base: Element, sections: seq<seq<Element>>, vals: seq<seq<string>>): (r: Run<State>)
    ensures r.Done? ==> var s := r.value; SameExcept(st.doc, s.doc, {OriginField}) && s.dwc == st.dwc && s.cleared == st.cleared + {OriginGroup}
  {
    var s1 := Touch(st, OriginGroup);
    if s1.doc.originInfo.None? then Undefined
    else
      var o := s1.doc.originInfo.value;
      var shown := Get(base.attributes, "displayLabel");
      var o1 := if shown.Some? then o.(displayLabel := shown) else o;
      match OriginValues(o1, sections, vals, 0)
      case Done(o2) => Done(s1.(doc := s1.doc.(originInfo := Some(o2))))
      case Raised(e) => Raised(e)
      case Undefined => Undefined
  }

  // ---------------------------------------------------------------------
  // Physical description
  // ---------------------------------------------------------------------

  /** The for-loop over the sections with the divisions of the first value
      only; in the package a missing division for `digitalOrigin` falls
      back to the element's literal, in the script it fails. */
  function PhysicalWalk(v: Variant, p: PhysicalDescription, sections: seq<seq<Element>>, divs: seq<string>, index: nat)
    : Run<PhysicalDescription>
    decreases |sections| - index
  {
    if index >= |sections| then Done(p)
    else if sections[index] == [] then Undefined
    else
      var e := sections[index][0];
      if e.name == "mods:extent" then
        (if index < |divs| then PhysicalWalk(v, p.(extent := Some(divs[index])), sections, divs, index + 1) else Undefined)
      else if e.name == "mods:digitalOrigin" then
        (if index < |divs| then PhysicalWalk(v, p.(digitalOrigin := Some(divs[index])), sections, divs, index + 1)
         else if v == Package then PhysicalWalk(v, p.(digitalOrigin := e.literal), sections, divs, index + 1)
         else Undefined)
      else if e.name == "mods:note" then
        (if index < |divs| then PhysicalWalk(v, p.(note := Some(divs[index])), sections, divs, index + 1) else Undefined)
      else PhysicalWalk(v, p, sections, divs, index + 1)
  }

  function PhysicalStep(v: Variant, st: State, sections: seq<seq<Element>>, vals: seq<seq<string>>): (r: Run<State>)
    ensures r.Done? ==> var s := r.value; SameExcept(st.doc, s.doc, {PhysicalField}) && s.dwc == st.dwc && s.cleared == st.cleared + {PhysicalGroup}
  {
    var s1 := Touch(st, PhysicalGroup);
    if vals == [] || s1.doc.physical.None? then Undefined
    else
      match PhysicalWalk(v, s1.doc.physical.value, sections, vals[0], 0)
      case Done(p) => Done(s1.(doc := s1.doc.(physical := Some(p))))
      case Raised(e) => Raised(e)
      case Undefined => Undefined
  }

  // ---------------------------------------------------------------------
  // Routing (`_process_mods_element`)
  // ---------------------------------------------------------------------

  /** Where `_process_mods_element` sends a value: one case per branch. */
  datatype Route =
    | ToId | ToNames | ToNamePart | ToTitles | ToLanguages | ToGenres | ToOrigin | ToPhysical
    | ToResourceType | ToAudience | ToAbstract | ToNotes | ToSubjects | ToIdentifiers | ToLocations | ToRelated

  /** The branch an element name selects, per copy: the script has no
      `targetAudience` branch. */
  function RouteOf(v: Variant, name: string): Option<Route> {
    if name == "mods:mods" then Some(ToId)
    else if name == "mods:name" then Some(ToNames)
    else if name == "mods:namePart" then Some(ToNamePart)
    else if name == "mods:titleInfo" then Some(ToTitles)
    else if name == "mods:language" then Some(ToLanguages)
    else if name == "mods:genre" then Some(ToGenres)
    else if name == "mods:originInfo" then Some(ToOrigin)
    else if name == "mods:physicalDescription" then Some(ToPhysical)
    else if name == "mods:typeOfResource" then Some(ToResourceType)
    else if name == "mods:targetAudience" && v == Package then Some(ToAudience)
    else if name == "mods:abstract" then Some(ToAbstract)
    else if name == "mods:note" then Some(ToNotes)
    else if name == "mods:subject" then Some(ToSubjects)
    else if name == "mods:identifier" then Some(ToIdentifiers)
    else if name == "mods:location" then Some(ToLocations)
    else if name == "mods:relatedItem" then Some(ToRelated)
    else None
  }

  /** The MODS elements the source routes, per copy. */
  predicate HandledMods(v: Variant, name: string) {
    RouteOf(v, name).Some?
  }

  /** `mods:mods` with an `ID` attribute sets the record's id. */
  function IdStep(st: State, base: Element, vals: seq<seq<string>>): (r: Run<State>)
    requires NonEmptyDivs(vals)
    ensures r.Done? ==> var s := r.value; SameExcept(st.doc, s.doc, {IdField}) && s.dwc == st.dwc && s.cleared == st.cleared
  {
    if "ID" !in base.attributes then Done(st)
    else if vals == [] then Undefined
    else Done(st.(doc := st.doc.(id := Some(vals[0][0]))))
  }

  function NamesStep(st: State, base: Element, sections: seq<seq<Element>>, vals: seq<seq<string>>): (s: State)
    ensures SameExcept(st.doc, s.doc, {NamesField}) && s.dwc == st.dwc && s.cleared == st.cleared + {NamesGroup}
    ensures Appended(st, NamesGroup, s, |vals|)
  {
    var s1 := Touch(st, NamesGroup);
    s1.(doc := s1.doc.(names := s1.doc.names + NamesOf(base, sections, vals)))
  }

  /** A new part for the last name, which is not cleared first. */
  function NamePartStep(st: State, base: Element, vals: seq<seq<string>>): (r: Run<State>)
    requires NonEmptyDivs(vals)
    ensures r.Done? ==> var s := r.value; SameExcept(st.doc, s.doc, {NamesField}) && s.dwc == st.dwc && s.cleared == st.cleared
  {
    var names := st.doc.names;
    if names == [] || vals == [] then Undefined
    else
      var last := names[|names| - 1];
      var last' := last.(parts := last.parts + [NamePart(Some(vals[0][0]), Get(base.attributes, "type"))]);
      Done(st.(doc := st.doc.(names := names[..|names| - 1] + [last'])))
  }

  function TitlesStep(st: State, base: Element, sections: seq<seq<Element>>, vals: seq<seq<string>>): (s: State)
    ensures SameExcept(st.doc, s.doc, {TitlesField}) && s.dwc == st.dwc && s.cleared == st.cleared + {TitlesGroup}
    ensures Appended(st, TitlesGroup, s, |vals|)
  {
    var s1 := Touch(st, TitlesGroup);
    s1.(doc := s1.doc.(titles := s1.doc.titles + TitlesOf(base, sections, vals)))
  }

  function LanguagesStep(st: State, sections: seq<seq<Element>>, vals: seq<seq<string>>): (r: Run<State>)
    requires NonEmptyDivs(vals)
    ensures r.Done? ==> var s := r.value; SameExcept(st.doc, s.doc, {LanguagesField}) && s.dwc == st.dwc && s.cleared == st.cleared + {LanguagesGroup}
    ensures r.Done? ==> Appended(st, LanguagesGroup, r.value, |vals|)
  {
    var s1 := Touch(st, LanguagesGroup);
    if vals == [] then Done(s1)
    else if !HasFirstElement(sections) then Undefined
    else Done(s1.(doc := s1.doc.(languages := s1.doc.languages + LanguagesOf(sections, vals))))
  }

  function GenresStep(st: State, base: Element, vals: seq<seq<string>>): (s: State)
    requires NonEmptyDivs(vals)
    ensures SameExcept(st.doc, s.doc, {GenresField}) && s.dwc == st.dwc && s.cleared == st.cleared + {GenresGroup}
    ensures Appended(st, GenresGroup, s, |vals|)
  {
    var s1 := Touch(st, GenresGroup);
    s1.(doc := s1.doc.(genres := s1.doc.genres + GenresOf(base, vals)))
  }

  function ResourceTypeStep(st: State, vals: seq<seq<string>>): (r: Run<State>)
    requires NonEmptyDivs(vals)
    ensures r.Done? ==> var s := r.value; SameExcept(st.doc, s.doc, {ResourceField}) && s.dwc == st.dwc && s.cleared == st.cleared + {ResourceGroup}
  {
    var s1 := Touch(st, ResourceGroup);
    if vals == [] then Undefined else Done(s1.(doc := s1.doc.(resourceType := Some(vals[0][0]))))
  }

  /** The first `targetAudience` drops the resource type; inherited
      audiences are never cleared. */
  function AudienceStep(st: State, vals: seq<seq<string>>): (r: Run<State>)
    requires NonEmptyDivs(vals)
    ensures r.Done? ==> var s := r.value; SameExcept(st.doc, s.doc, {ResourceField, AudiencesField}) && s.dwc == st.dwc && s.cleared == st.cleared + {AudienceGroup}
  {
    var s1 := Touch(st, AudienceGroup);
    if vals == [] then Undefined
    else Done(s1.(doc := s1.doc.(targetAudiences := s1.doc.targetAudiences + [vals[0][0]])))
  }

  function AbstractStep(st: State, vals: seq<seq<string>>): (r: Run<State>)
    requires NonEmptyDivs(vals)
    ensures r.Done? ==> var s := r.value; SameExcept(st.doc, s.doc, {AbstractField}) && s.dwc == st.dwc && s.cleared == st.cleared + {AbstractGroup}
  {
    var s1 := Touch(st, AbstractGroup);
    if vals == [] then Undefined else Done(s1.(doc := s1.doc.(abstractText := Some(vals[0][0]))))
  }

  function NotesStep(st: State, base: Element, vals: seq<seq<string>>): (s: State)
    requires NonEmptyDivs(vals)
    ensures SameExcept(st.doc, s.doc, {NotesField}) && s.dwc == st.dwc && s.cleared == st.cleared + {NotesGroup}
    ensures Appended(st, NotesGroup, s, |vals|)
  {
    var s1 := Touch(st, NotesGroup);
    s1.(doc := s1.doc.(notes := s1.doc.notes + NotesOf(base, vals)))
  }

  function SubjectsStep(st: State, base: Element, sections: seq<seq<Element>>, vals: seq<seq<string>>): (r: Run<State>)
    ensures r.Done? ==> var s := r.value; SameExcept(st.doc, s.doc, {SubjectsField}) && s.dwc == st.dwc && s.cleared == st.cleared + {SubjectsGroup}
    ensures r.Done? ==> Appended(st, SubjectsGroup, r.value, |vals|)
  {
    var s1 := Touch(st, SubjectsGroup);
    if !SubjectsOk(sections, vals) then Undefined
    else Done(s1.(doc := s1.doc.(subjects := s1.doc.subjects + SubjectsOf(base, sections, vals))))
  }

  function IdentifiersStep(st: State, base: Element, vals: seq<seq<string>>): (s: State)
    requires NonEmptyDivs(vals)
    ensures SameExcept(st.doc, s.doc, {IdentifiersField}) && s.dwc == st.dwc && s.cleared == st.cleared + {IdentifiersGroup}
    ensures Appended(st, IdentifiersGroup, s, |vals|)
  {
    var s1 := Touch(st, IdentifiersGroup);
    s1.(doc := s1.doc.(identifiers := s1.doc.identifiers + IdentifiersOf(base, vals)))
  }

  function LocationsStep(st: State, sections: seq<seq<Element>>, vals: seq<seq<string>>): (r: Run<State>)
    ensures r.Done? ==> var s := r.value; SameExcept(st.doc, s.doc, {LocationsField}) && s.dwc == st.dwc && s.cleared == st.cleared + {LocationsGroup}
    ensures r.Done? ==> Appended(st, LocationsGroup, r.value, |vals|)
  {
    var s1 := Touch(st, LocationsGroup);
    if !LocationsOk(sections, vals) then Undefined
    else Done(s1.(doc := s1.doc.(locations := s1.doc.locations + LocationsOf(sections, vals))))
  }

  function RelatedStep(st: State, base: Element, sections: seq<seq<Element>>, vals: seq<seq<string>>): (r: Run<State>)
    requires NonEmptyDivs(vals)
    ensures r.Done? ==> var s := r.value; SameExcept(st.doc, s.doc, {RelatedField}) && s.dwc == st.dwc && s.cleared == st.cleared + {RelatedGroup}
    ensures r.Done? ==> Appended(st, RelatedGroup, r.value, |vals|)
  {
    var s1 := Touch(st, RelatedGroup);
    if vals == [] then Done(s1)
    else if !RelatedSectionsOk(sections) then Undefined
    else Done(s1.(doc := s1.doc.(relatedItems := s1.doc.relatedItems + RelatedOf(base, sections, vals))))
  }

  /** `_process_mods_element`: route by the base element's name. */
  function ModsStep(v: Variant, st: State, path: Path, vals: seq<seq<string>>): Run<State>
    requires NonEmptyDivs(vals)
  {
    var base, sections := path.base, path.sections;
    match RouteOf(v, base.name)
    case None => Raised(UnhandledElement(base.name))
    case Some(r) => RouteStep(v, r, st, path, vals)
  }

  /** One branch of `_process_mods_element`. */
  function RouteStep(v: Variant, r: Route, st: State, path: Path, vals: seq<seq<string>>): Run<State>
    requires NonEmptyDivs(vals)
  {
    var base, sections := path.base, path.sections;
    match r
    case ToId => IdStep(st, base, vals)
    case ToNames => Done(NamesStep(st, base, sections, vals))
    case ToNamePart => NamePartStep(st, base, vals)
    case ToTitles => Done(TitlesStep(st, base, sections, vals))
    case ToLanguages => LanguagesStep(st, sections, vals)
    case ToGenres => Done(GenresStep(st, base, vals))
    case ToOrigin => OriginStep(st, base, sections, vals)
    case ToPhysical => PhysicalStep(v, st, sections, vals)
    case ToResourceType => ResourceTypeStep(st, vals)
    case ToAudience => AudienceStep(st, vals)
    case ToAbstract => AbstractStep(st, vals)
    case ToNotes => Done(NotesStep(st, base, vals))
    case ToSubjects => SubjectsStep(st, base, sections, vals)
    case ToIdentifiers => Done(IdentifiersStep(st, base, vals))
    case ToLocations => LocationsStep(st, sections, vals)
    case ToRelated => RelatedStep(st, base, sections, vals)
  }

  // ---------------------------------------------------------------------
  // DarwinCore (`_process_dwc_element`)
  // ---------------------------------------------------------------------

  /** The DarwinCore elements the source stores, per copy: the script has
      no `recordNumber`, `locality` or `municipality`. */
  predicate HandledDwc(v: Variant, name: string) {
    name in {"dc:type", "dc:modified", "dwc:catalogNumber", "dwc:basisOfRecord", "dwc:recordedBy",
             "dwc:individualID", "dwc:eventDate", "dwc:verbatimEventDate", "dwc:scientificName",
             "dwc:higherClassification", "dwc:kingdom", "dwc:phylum", "dwc:class", "dwc:order",
             "dwc:family", "dwc:genus", "dwc:specificEpithet", "dwc:scientificNameAuthorship",
             "dwc:infraspecificEpithet", "dwc:taxonRank", "dwc:acceptedNameUsage", "dwc:county",
             "dwc:stateProvince", "dwc:country", "dwc:habitat", "dwc:identificationID"}
    || (v == Package && name in {"dwc:recordNumber", "dwc:locality", "dwc:municipality"})
  }

  /** Store a text under a DarwinCore element's name. */
  function DwcStore(v: Variant, st: State, name: string, text: string): Run<State> {
    if HandledDwc(v, name) then Done(st.(dwc := st.dwc[name := text]))
    else Raised(UnhandledDwcElement(name))
  }

  // ---------------------------------------------------------------------
  // `add_data`
  // ---------------------------------------------------------------------

  /** `add_data` once the location is parsed: a DarwinCore record in the
      package stores the whole text with `||` turned into `|`; otherwise
      the text is cut into values, and a DarwinCore record of the script
      stores the first division of the first value. */
  function StoreStep(t: RecordType, v: Variant, st: State, path: Path, data: string): Run<State> {
    if t == DwcRecord && v == Package then DwcStore(v, st, path.base.name, Replace(data, "||", "|"))
    else
      var pieces := Pieces(data);
      if !Divisible(pieces, path.sectioned) then Undefined
      else
        var vals := Divided(pieces, path.sectioned);
        ValuesNonEmpty(pieces, path.sectioned);
        if t == DwcRecord then
          (if HandledDwc(v, path.base.name) && vals == [] then Undefined
           else DwcStore(v, st, path.base.name, FirstValue(vals)))
        else ModsStep(v, st, path, vals)
  }

  /** The first value of a field, the empty text without one. */
  function FirstValue(vals: seq<seq<string>>): string
    requires NonEmptyDivs(vals)
  {
    if vals == [] then [] else vals[0][0]
  }

  /** Past the package's DarwinCore branch, a store that does not crash
      splits the text into values and hands them on. */
  lemma StoreDivided(t: RecordType, v: Variant, st: State, path: Path, data: string)
    requires !(t == DwcRecord && v == Package) && !StoreStep(t, v, st, path, data).Undefined?
    ensures Divisible(Pieces(data), path.sectioned) && NonEmptyDivs(Divided(Pieces(data), path.sectioned))
    ensures t == ModsRecord ==> StoreStep(t, v, st, path, data) == ModsStep(v, st, path, Divided(Pieces(data), path.sectioned))
    ensures t == DwcRecord ==>
              StoreStep(t, v, st, path, data) == DwcStore(v, st, path.base.name, FirstValue(Divided(Pieces(data), path.sectioned)))
              && !(HandledDwc(v, path.base.name) && Divided(Pieces(data), path.sectioned) == [])
  {
    ValuesNonEmpty(Pieces(data), path.sectioned);
  }

  /** `add_data(mods_loc, data)`: parse the location, then store. */
  function AddDataStep(t: RecordType, v: Variant, st: State, loc: string, data: string): Run<State> {
    match Parse(loc)
    case Failure(e) => Raised(e)
    case Success(path) => StoreStep(t, v, st, path, data)
  }

  /** The values of a MODS cell: pieces are non-empty, so each has at least
      one division. */
  lemma ValuesNonEmpty(pieces: seq<string>, sectioned: bool)
    requires Divisible(pieces, sectioned)
    requires forall k :: 0 <= k < |pieces| ==> pieces[k] != []
    ensures NonEmptyDivs(Divided(pieces, sectioned))
  {
  }

  /** `Mapper(record_type, field_data, parent_mods)`: the fields in order,
      the first exception ending the run. */
  function RunFields(t: RecordType, v: Variant, st: State, fields: seq<FieldDatum>): Run<State>
    decreases |fields|
  {
    if fields == [] then Done(st)
    else
      match AddDataStep(t, v, st, fields[0].path, fields[0].data)
      case Done(st') => RunFields(t, v, st', fields[1..])
      case Raised(e) => Raised(e)
      case Undefined => Undefined
  }

  /** One field of a run that does not crash: its store does not crash,
      and either raises what the run raises or leads on to the rest. */
  lemma RunFieldsCons(t: RecordType, v: Variant, st: State, fields: seq<FieldDatum>, i: nat, whole: Run<State>)
    requires i < |fields| && whole == RunFields(t, v, st, fields[i..]) && !whole.Undefined?
    ensures var step := AddDataStep(t, v, st, fields[i].path, fields[i].data);
            !step.Undefined?
            && (step.Raised? ==> whole == Raised(step.error))
            && (step.Done? ==> whole == RunFields(t, v, step.value, fields[i + 1..]))
  {
    assert fields[i..][0] == fields[i] && fields[i..][1..] == fields[i + 1..];
  }

  /** The state a new Mapper starts from: a fresh record for DarwinCore, the
      parent's MODS record or a fresh one otherwise. */
  function Initial(t: RecordType, parent: Option<Mods>): State {
    State(if t == ModsRecord && parent.Some? then parent.value else EmptyMods, map[], {})
  }
}
