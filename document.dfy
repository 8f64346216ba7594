/** The MODS record the mapper fills in, as a plain value: the lists and
    optional parts of `bdrxml.mods.Mods` that the mapper writes, each item
    holding the texts and attributes the mapper sets on it. */
module Document {
  import opened Common

  datatype NamePart = NamePart(text: Option<string>, partType: Option<string>)
  datatype Role = Role(text: string, roleType: Option<string>, authority: Option<string>)
  datatype Name = Name(nameType: Option<string>, parts: seq<NamePart>, roles: seq<Role>)

  datatype TitleInfo = TitleInfo(titleType: Option<string>, displayLabel: Option<string>, title: Option<string>,
                                 partName: Option<string>, partNumber: Option<string>, nonSort: Option<string>)

  /** A `mods:language` holding the one `languageTerm` the mapper creates. */
  datatype Language = Language(text: string, authority: Option<string>, termType: Option<string>)

  datatype Genre = Genre(text: string, authority: Option<string>)

  /** The seven date kinds of `originInfo`, one list each in the source. */
  datatype DateKind = Created | Issued | Captured | Valid | Modified | Copyright | Other

  datatype DateEntry = DateEntry(kind: DateKind, date: string, encoding: Option<string>,
                                 point: Option<string>, keyDate: Option<string>)

  /** `originInfo`: its label, its dates in the order they were added (the
      source's per-kind lists are this list filtered by kind), its place
      terms and its publisher. */
  datatype OriginInfo = OriginInfo(displayLabel: Option<string>, dates: seq<DateEntry>, places: seq<string>,
                                   publisher: Option<string>)

  datatype PhysicalDescription = PhysicalDescription(extent: Option<string>, digitalOrigin: Option<string>,
                                                     note: Option<string>)

  datatype Note = Note(text: string, noteType: Option<string>, displayLabel: Option<string>)

  datatype HierarchicalGeographic = HierarchicalGeographic(country: Option<string>, state: Option<string>)

  datatype Subject = Subject(authority: Option<string>, topics: seq<string>, temporals: seq<string>,
                             geographic: Option<string>, hierarchical: Option<HierarchicalGeographic>)

  datatype Identifier = Identifier(text: string, idType: Option<string>, displayLabel: Option<string>)

  /** `mods:location`: its url, its physical location, and the note of a
      `holdingSimple/copyInformation`. */
  datatype ModsLocation = ModsLocation(url: Option<string>, physical: Option<string>, holdingNote: Option<string>)

  datatype RelatedItem = RelatedItem(itemType: Option<string>, displayLabel: Option<string>, title: Option<string>)

  datatype Mods = Mods(
    id: Option<string>,
    names: seq<Name>,
    titles: seq<TitleInfo>,
    languages: seq<Language>,
    genres: seq<Genre>,
    originInfo: Option<OriginInfo>,
    physical: Option<PhysicalDescription>,
    resourceType: Option<string>,
    targetAudiences: seq<string>,
    abstractText: Option<string>,
    notes: seq<Note>,
    subjects: seq<Subject>,
    identifiers: seq<Identifier>,
    locations: seq<ModsLocation>,
    relatedItems: seq<RelatedItem>)

  /** `mods.make_mods()` */
  const EmptyMods := Mods(None, [], [], [], [], None, None, None, [], None, [], [], [], [], [])

  const EmptyOrigin := OriginInfo(None, [], [], None)
  const EmptyPhysical := PhysicalDescription(None, None, None)

  /** The parts of a record, one per attribute of the MODS object the
      mapper writes. */
  datatype Field =
    | IdField | NamesField | TitlesField | LanguagesField | GenresField | OriginField | PhysicalField
    | ResourceField | AudiencesField | AbstractField | NotesField | SubjectsField | IdentifiersField
    | LocationsField | RelatedField

  /** The two records agree on every part outside `fs`. */
  predicate SameExcept(a: Mods, b: Mods, fs: set<Field>) {
    (IdField !in fs ==> a.id == b.id)
    && (NamesField !in fs ==> a.names == b.names)
    && (TitlesField !in fs ==> a.titles == b.titles)
    && (LanguagesField !in fs ==> a.languages == b.languages)
    && (GenresField !in fs ==> a.genres == b.genres)
    && (OriginField !in fs ==> a.originInfo == b.originInfo)
    && (PhysicalField !in fs ==> a.physical == b.physical)
    && (ResourceField !in fs ==> a.resourceType == b.resourceType)
    && (AudiencesField !in fs ==> a.targetAudiences == b.targetAudiences)
    && (AbstractField !in fs ==> a.abstractText == b.abstractText)
    && (NotesField !in fs ==> a.notes == b.notes)
    && (SubjectsField !in fs ==> a.subjects == b.subjects)
    && (IdentifiersField !in fs ==> a.identifiers == b.identifiers)
    && (LocationsField !in fs ==> a.locations == b.locations)
    && (RelatedField !in fs ==> a.relatedItems == b.relatedItems)
  }

  /** The number of items in a list-valued part (0 for the others). */
  function Size(d: Mods, f: Field): nat {
    match f
    case NamesField => |d.names|
    case TitlesField => |d.titles|
    case LanguagesField => |d.languages|
    case GenresField => |d.genres|
    case AudiencesField => |d.targetAudiences|
    case NotesField => |d.notes|
    case SubjectsField => |d.subjects|
    case IdentifiersField => |d.identifiers|
    case LocationsField => |d.locations|
    case RelatedField => |d.relatedItems|
    case _ => 0
  }

  /** The list-valued part `f` of `a` is a prefix of that of `b`. */
  predicate Prefix(a: Mods, b: Mods, f: Field) {
    match f
    case NamesField => a.names <= b.names
    case TitlesField => a.titles <= b.titles
    case LanguagesField => a.languages <= b.languages
    case GenresField => a.genres <= b.genres
    case AudiencesField => a.targetAudiences <= b.targetAudiences
    case NotesField => a.notes <= b.notes
    case SubjectsField => a.subjects <= b.subjects
    case IdentifiersField => a.identifiers <= b.identifiers
    case LocationsField => a.locations <= b.locations
    case RelatedField => a.relatedItems <= b.relatedItems
    case _ => a == b
  }

  lemma SameExceptTrans(a: Mods, b: Mods, c: Mods, fs: set<Field>, gs: set<Field>)
    requires SameExcept(a, b, fs) && SameExcept(b, c, gs)
    ensures SameExcept(a, c, fs + gs)
  {
  }

  lemma SameExceptWiden(a: Mods, b: Mods, fs: set<Field>, gs: set<Field>)
    requires SameExcept(a, b, fs) && fs <= gs
    ensures SameExcept(a, b, gs)
  {
  }
}
