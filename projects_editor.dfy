/**
 * The updaters of `src/components/editors/ProjectsEditor.tsx`: the text
 * fields of a project, and the technologies input, which shows the list
 * joined with ", " and turns what is typed back into a list by splitting at
 * every comma and trimming each piece.
 */
module ProjectsEditor {
  import opened ResumeTypes
  import opened Lists
  import opened SectionStore

  // ---------------------------------------------------------------------------
  // String.prototype.split, trim and Array.prototype.join
  // ---------------------------------------------------------------------------

  /** The characters `trim` removes: ECMAScript's WhiteSpace and LineTerminator. */
  predicate IsWhitespace(c: char) {
    || c == '\t' || c == '\n' || c == '\U{B}' || c == '\U{C}' || c == '\r' || c == ' '
    || c == '\U{A0}' || c == '\U{1680}' || ('\U{2000}' <= c <= '\U{200A}')
    || c == '\U{2028}' || c == '\U{2029}' || c == '\U{202F}' || c == '\U{205F}'
    || c == '\U{3000}' || c == '\U{FEFF}'
  }

  /** Neither the first nor the last character is whitespace. */
  predicate Trimmed(s: string) {
    s == [] || (!IsWhitespace(s[0]) && !IsWhitespace(s[|s| - 1]))
  }

  /** Drops the leading whitespace: what is left is a suffix starting with a non-space. */
  function TrimStart(s: string): (r: string)
    ensures |r| <= |s| && r == s[|s| - |r|..]
    ensures r == [] || !IsWhitespace(r[0])
    ensures forall i | 0 <= i < |s| - |r| :: IsWhitespace(s[i])
  {
    if s != [] && IsWhitespace(s[0]) then TrimStart(s[1..]) else s
  }

  /** Drops the trailing whitespace: what is left is a prefix ending in a non-space. */
  function TrimEnd(s: string): (r: string)
    ensures |r| <= |s| && r == s[..|r|]
    ensures r == [] || !IsWhitespace(r[|r| - 1])
    ensures forall i | |r| <= i < |s| :: IsWhitespace(s[i])
  {
    if s != [] && IsWhitespace(s[|s| - 1]) then TrimEnd(s[..|s| - 1]) else s
  }

  /** `s.trim()` */
  function Trim(s: string): (r: string)
    ensures Trimmed(r)
  {
    var t := TrimStart(s);
    var r := TrimEnd(t);
    assert r != [] ==> r[0] == t[0];
    r
  }

  /** Trimming only removes characters: one the string lacks stays absent. */
  lemma TrimKeepsOut(s: string, c: char)
    requires c !in s
    ensures c !in Trim(s)
  {
    var t := TrimStart(s);
    var r := Trim(s);
    forall i | 0 <= i < |r|
      ensures r[i] != c
    {
      assert r[i] == t[i] == s[|s| - |t| + i];
    }
  }

  /** Trimming a string without surrounding whitespace leaves it as it is. */
  lemma TrimTrimmed(s: string)
    requires Trimmed(s)
    ensures Trim(s) == s
  {
    assert TrimStart(s) == s;
  }

  /** The space that follows the comma of the separator is trimmed away. */
  lemma TrimAfterSpace(s: string)
    requires Trimmed(s)
    ensures Trim(" " + s) == s
  {
    assert (" " + s)[1..] == s;
    assert TrimStart(" " + s) == TrimStart(s) == s;
  }

  /** `s.split(sep)` for a one-character separator: the pieces between separators. */
  function Split(s: string, sep: char): (r: seq<string>)
    ensures |r| == multiset(s)[sep] + 1
    ensures forall i | 0 <= i < |r| :: sep !in r[i]
  {
    if s == [] then [""]
    else
      var rest := Split(s[1..], sep);
      assert s == [s[0]] + s[1..];
      if s[0] == sep then [""] + rest
      else [[s[0]] + rest[0]] + rest[1..]
  }

  /** A piece without separators followed by a separator splits off as one element. */
  lemma {:induction false} SplitAfterPiece(a: string, sep: char, b: string)
    requires sep !in a
    ensures Split(a + [sep] + b, sep) == [a] + Split(b, sep)
  {
    if a != [] {
      SplitAfterPiece(a[1..], sep, b);
      assert (a + [sep] + b)[1..] == a[1..] + [sep] + b;
      assert [a[0]] + a[1..] == a;
    } else {
      assert (a + [sep] + b)[1..] == b;
    }
  }

  /** A string without the separator is one piece. */
  lemma {:induction false} SplitWhole(a: string, sep: char)
    requires sep !in a
    ensures Split(a, sep) == [a]
  {
    if a != [] {
      SplitWhole(a[1..], sep);
      assert [a[0]] + a[1..] == a;
    }
  }

  /** A leading character that is not the separator joins the first piece. */
  lemma SplitCons(c: char, s: string, sep: char)
    requires c != sep
    ensures Split([c] + s, sep) == [[c] + Split(s, sep)[0]] + Split(s, sep)[1..]
  {
    assert ([c] + s)[1..] == s;
  }

  /** `items.join(sep)` */
  function Join(items: seq<string>, sep: string): string {
    if |items| == 0 then ""
    else if |items| == 1 then items[0]
    else items[0] + sep + Join(items[1..], sep)
  }

  /** `value.split(',').map(tech => tech.trim())` */
  function SplitTrim(value: string): (r: seq<string>)
    ensures |r| == multiset(value)[','] + 1
    ensures forall i | 0 <= i < |r| :: ',' !in r[i] && Trimmed(r[i])
  {
    var pieces := Split(value, ',');
    var r := seq(|pieces|, i requires 0 <= i < |pieces| => Trim(pieces[i]));
    forall i | 0 <= i < |r|
      ensures ',' !in r[i]
    {
      TrimKeepsOut(pieces[i], ',');
    }
    r
  }

  /** An empty input gives one empty technology, not an empty list. */
  lemma SplitTrimEmpty()
    ensures SplitTrim("") == [""]
  {
    assert Trim("") == "";
  }

  /**
   * Splitting the ", "-joined list at the commas gives the first item, then
   * every later item behind the space of the separator.
   */
  lemma {:induction false} SplitJoined(items: seq<string>)
    requires items != []
    requires forall i | 0 <= i < |items| :: ',' !in items[i]
    ensures var pieces := Split(Join(items, ", "), ',');
      && |pieces| == |items| && pieces[0] == items[0]
      && forall i | 1 <= i < |items| :: pieces[i] == " " + items[i]
  {
    if |items| == 1 {
      SplitWhole(items[0], ',');
    } else {
      var rest := items[1..];
      SplitJoined(rest);
      var tail := Join(rest, ", ");
      assert Join(items, ", ") == items[0] + [','] + ([' '] + tail);
      SplitAfterPiece(items[0], ',', [' '] + tail);
      SplitCons(' ', tail, ',');
      PiecesAfterSeparator(items, Split(tail, ','), Split(Join(items, ", "), ','));
    }
  }

  /** The bookkeeping step of `SplitJoined`: the pieces of the tail, shifted by one. */
  lemma PiecesAfterSeparator(items: seq<string>, tailPieces: seq<string>, pieces: seq<string>)
    requires |items| >= 2 && |tailPieces| == |items| - 1
    requires tailPieces[0] == items[1]
    requires forall i | 1 <= i < |tailPieces| :: tailPieces[i] == " " + items[i + 1]
    requires pieces == [items[0]] + ([[' '] + tailPieces[0]] + tailPieces[1..])
    ensures |pieces| == |items| && pieces[0] == items[0]
    ensures forall i | 1 <= i < |items| :: pieces[i] == " " + items[i]
  {
    forall i | 1 <= i < |items|
      ensures pieces[i] == " " + items[i]
    {
      if i >= 2 {
        assert pieces[i] == tailPieces[i - 1];
      }
    }
  }

  /**
   * The technologies input round-trips: a non-empty list whose items hold
   * no comma and no surrounding whitespace comes back unchanged when its
   * ", "-joined display is split and trimmed.
   */
  lemma JoinSplitTrimRoundTrip(items: seq<string>)
    requires items != []
    requires forall i | 0 <= i < |items| :: ',' !in items[i] && Trimmed(items[i])
    ensures SplitTrim(Join(items, ", ")) == items
  {
    SplitJoined(items);
    var pieces := Split(Join(items, ", "), ',');
    var r := SplitTrim(Join(items, ", "));
    forall i | 0 <= i < |items|
      ensures r[i] == items[i]
    {
      if i == 0 {
        TrimTrimmed(items[0]);
      } else {
        TrimAfterSpace(items[i]);
      }
    }
  }

  /** The empty list does not survive the round trip: it comes back as `[""]`. */
  lemma EmptyListDoesNotRoundTrip()
    ensures SplitTrim(Join([], ", ")) == [""] != []
  {
    SplitTrimEmpty();
  }

  // ---------------------------------------------------------------------------
  // Updaters
  // ---------------------------------------------------------------------------

  /** The text fields the form edits. */
  datatype ProjectField = Name | Date | Description | LinkUrl

  /** The field's text as the form shows it; an absent link shows as empty. */
  function FieldValue(p: Project, f: ProjectField): string {
    match f
    case Name => p.name
    case Date => p.date
    case Description => p.description
    case LinkUrl => p.link.GetOr("")
  }

  /** `{ ...project, [field]: value }`: the named field reads back the value, the rest is kept. */
  function SetField(p: Project, f: ProjectField, value: string): (r: Project)
    ensures forall g :: FieldValue(r, g) == if g == f then value else FieldValue(p, g)
    ensures r.id == p.id && r.technologies == p.technologies
    ensures f == LinkUrl ==> r.link == Some(value)
    ensures f != LinkUrl ==> r.link == p.link
  {
    match f
    case Name => p.(name := value)
    case Date => p.(date := value)
    case Description => p.(description := value)
    case LinkUrl => p.(link := Some(value))
  }

  /** `handleChange` for a text field: only that field of the project at `index` changes. */
  method HandleChange(content: seq<Project>, index: nat, field: ProjectField, value: string)
    returns (r: seq<Project>)
    requires index < |content|
    ensures |r| == |content| && r[index] == SetField(content[index], field, value)
    ensures forall j | 0 <= j < |content| && j != index :: r[j] == content[j]
  {
    r := AssignAt(content, index, SetField(content[index], field, value));
  }

  /**
   * `handleTechnologies`: `handleChange('technologies', ...)` with the split
   * and trimmed input; only the technologies of the project at `index` change.
   */
  method HandleTechnologies(content: seq<Project>, index: nat, value: string)
    returns (r: seq<Project>)
    requires index < |content|
    ensures |r| == |content| && r[index] == content[index].(technologies := SplitTrim(value))
    ensures forall j | 0 <= j < |content| && j != index :: r[j] == content[j]
  {
    r := AssignAt(content, index, content[index].(technologies := SplitTrim(value)));
  }

  /** The text the technologies input shows. */
  function TechnologiesDisplay(p: Project): string {
    Join(p.technologies, ", ")
  }

  /** `handleReorder`: the reordered list replaces the section's content as it is. */
  method HandleReorder(store: ResumeStore, sectionId: string, newContent: seq<Project>)
    modifies store
    ensures store.sections == Updated(old(store.sections), sectionId, Replace(ProjectList(newContent)))
  {
    store.UpdateSection(sectionId, Replace(ProjectList(newContent)));
  }
}
