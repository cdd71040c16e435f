/**
 * The résumé data model of `src/types/index.ts`: a section is an id, a type
 * and a content payload whose shape the type prescribes.
 */
module ResumeTypes {

  datatype Option<T> = None | Some(value: T) {
    /** `x || default` for an optional field. */
    function GetOr(default: T): T {
      match this
      case Some(v) => v
      case None => default
    }
  }

  /** The `type` discriminant of a section. */
  datatype SectionType =
    | Personal | About | Education | Experience | Skills
    | Projects | Certificates | Languages | References
  {
    /** The types whose content is an ordered list of entries. */
    predicate HoldsEntries() {
      !Personal? && !About?
    }
  }

  /** A profile link; `label` is a Dafny keyword, so the label field is `labelText`. */
  datatype Link = Link(id: string, labelText: string, url: string)

  datatype PersonalInfo = PersonalInfo(
    fullName: string, email: string, phone: string, location: string, links: seq<Link>)

  datatype EducationEntry = EducationEntry(
    id: string, school: string, degree: string, date: string,
    gpa: Option<string>, location: string, points: Option<seq<string>>)

  datatype ExperienceEntry = ExperienceEntry(
    id: string, title: string, company: string, date: string, location: string,
    points: seq<string>)

  datatype Skill = Skill(id: string, category: string, items: seq<string>)

  datatype Project = Project(
    id: string, name: string, date: string, description: string,
    technologies: seq<string>, link: Option<string>)

  datatype Certificate = Certificate(
    id: string, name: string, issuer: string, date: string, link: Option<string>)

  datatype LanguageProficiency = LanguageProficiency(
    id: string, name: string, level: string, description: Option<string>)

  datatype Reference = Reference(
    id: string, name: string, title: string, company: string, email: string,
    phone: Option<string>, relationship: string)

  /**
   * The `content` union. `Placeholder` is the empty object `{}` that a new
   * section carries until the store replaces it with its initial content.
   */
  datatype Content =
    | PersonalContent(info: PersonalInfo)
    | AboutContent(description: string)
    | EducationList(educations: seq<EducationEntry>)
    | ExperienceList(experiences: seq<ExperienceEntry>)
    | SkillList(skills: seq<Skill>)
    | ProjectList(projects: seq<Project>)
    | CertificateList(certificates: seq<Certificate>)
    | LanguageList(languages: seq<LanguageProficiency>)
    | ReferenceList(references: seq<Reference>)
    | Placeholder
  {
    /** `Array.isArray(content)` */
    predicate IsEntryList() {
      !PersonalContent? && !AboutContent? && !Placeholder?
    }

    /** `content.length` of a list content. */
    function EntryCount(): nat
      requires IsEntryList()
    {
      match this
      case EducationList(es) => |es|
      case ExperienceList(es) => |es|
      case SkillList(es) => |es|
      case ProjectList(es) => |es|
      case CertificateList(es) => |es|
      case LanguageList(es) => |es|
      case ReferenceList(es) => |es|
    }
  }

  datatype Section = Section(id: string, kind: SectionType, content: Content)

  /** The content has exactly the shape that the section type prescribes. */
  predicate Fits(kind: SectionType, c: Content) {
    match kind
    case Personal => c.PersonalContent?
    case About => c.AboutContent?
    case Education => c.EducationList?
    case Experience => c.ExperienceList?
    case Skills => c.SkillList?
    case Projects => c.ProjectList?
    case Certificates => c.CertificateList?
    case Languages => c.LanguageList?
    case References => c.ReferenceList?
  }

  predicate WellFormed(s: Section) {
    Fits(s.kind, s.content)
  }
}
