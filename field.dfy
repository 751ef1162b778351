/**
 * The document fields of the index (`Field`) and the Lucene `Term` that
 * pairs a field key with a text.
 */
module Fields {
  import opened Strings

  /** The fields, in declaration order. */
  datatype Field = EXT | PROJ | WS | CONTENTS | FILE | NAME | JAR | DIR | MODIFIED

  const AllFields: seq<Field> := [EXT, PROJ, WS, CONTENTS, FILE, NAME, JAR, DIR, MODIFIED]

  /** A Lucene term: the key of a field and a text. */
  datatype Term = Term(field: string, text: string)

  /** Enum.name(): the constant's identifier. */
  function Name(f: Field): string
  {
    match f
    case EXT => "EXT"
    case PROJ => "PROJ"
    case WS => "WS"
    case CONTENTS => "CONTENTS"
    case FILE => "FILE"
    case NAME => "NAME"
    case JAR => "JAR"
    case DIR => "DIR"
    case MODIFIED => "MODIFIED"
  }

  /** The title given in the constant's declaration, if any. */
  function DeclaredTitle(f: Field): Option<string>
  {
    match f
    case EXT => Some("Extension")
    case PROJ => Some("Project")
    case WS => Some("Working Set")
    case MODIFIED => Some("Modified")
    case _ => None
  }

  /** getTitle: the declared title, or the constant's name when it has none. */
  function Title(f: Field): (r: string)
    ensures DeclaredTitle(f).Some? ==> r == DeclaredTitle(f).value
    ensures DeclaredTitle(f).None? ==> r == Name(f)
    ensures r != ""
  {
    match DeclaredTitle(f)
    case Some(t) => t
    case None => Name(f)
  }

  /** Only the fields declared with a title show something else than their name. */
  lemma TitleDiffersFromName(f: Field)
    ensures Title(f) != Name(f) <==> f in {EXT, PROJ, WS, MODIFIED}
  {
  }

  /** toString, which is also the key used in index documents. */
  function ToString(f: Field): string
  {
    match f
    case EXT => "ext"
    case PROJ => "proj"
    case WS => "ws"
    case CONTENTS => "contents"
    case FILE => "file"
    case NAME => "name"
    case JAR => "jar"
    case DIR => "dir"
    case MODIFIED => "modified"
  }

  /** The first of `fields` whose name is `u`. */
  function FindField(u: string, fields: seq<Field>): (r: Option<Field>)
  {
    if fields == [] then None
    else if Name(fields[0]) == u then Some(fields[0])
    else FindField(u, fields[1..])
  }

  lemma {:induction false} FindFieldFinds(u: string, fields: seq<Field>)
    ensures FindField(u, fields).Some? ==>
      FindField(u, fields).value in fields && Name(FindField(u, fields).value) == u
    ensures FindField(u, fields).None? <==> forall f :: f in fields ==> Name(f) != u
  {
    if fields != [] {
      FindFieldFinds(u, fields[1..]);
      assert forall f :: f in fields <==> f == fields[0] || f in fields[1..];
    }
  }

  /**
   * getByName: `Field.valueOf(fieldName.toUpperCase())`, with the exception
   * thrown for an unknown constant turned into no field.
   */
  function GetByName(fieldName: string): Option<Field>
  {
    FindField(Upper(fieldName), AllFields)
  }

  lemma AllFieldsListed(f: Field)
    ensures f in AllFields
  {
  }

  /** No two constants share a name. */
  lemma NamesDiffer(f: Field, g: Field)
    requires Name(f) == Name(g)
    ensures f == g
  {
  }

  /** getByName finds exactly the constant whose name is the upper-cased text. */
  lemma GetByNameFindsName(fieldName: string)
    ensures GetByName(fieldName).Some? ==> Name(GetByName(fieldName).value) == Upper(fieldName)
    ensures GetByName(fieldName).None? <==> forall f: Field :: Name(f) != Upper(fieldName)
  {
    FindFieldFinds(Upper(fieldName), AllFields);
    forall f: Field ensures f in AllFields {
      AllFieldsListed(f);
    }
  }

  /** getByName of a constant's name, in any case, is that constant. */
  lemma GetByNameOfName(fieldName: string, f: Field)
    requires Upper(fieldName) == Name(f)
    ensures GetByName(fieldName) == Some(f)
  {
    GetByNameFindsName(fieldName);
    NamesDiffer(GetByName(fieldName).value, f);
  }

  /** Lookup ignores the case of the name. */
  lemma GetByNameIgnoresCase(a: string, b: string)
    requires Upper(a) == Upper(b)
    ensures GetByName(a) == GetByName(b)
  {
  }

  /** The printed name is the constant's name in lower case. */
  lemma ToStringIsLowerName(f: Field)
    ensures ToString(f) == Lower(Name(f))
  {
    match f
    case EXT => assert Lower("EXT") == "ext";
    case PROJ => assert Lower("PROJ") == "proj";
    case WS => assert Lower("WS") == "ws";
    case CONTENTS => assert Lower("CONTENTS") == "contents";
    case FILE => assert Lower("FILE") == "file";
    case NAME => assert Lower("NAME") == "name";
    case JAR => assert Lower("JAR") == "jar";
    case DIR => assert Lower("DIR") == "dir";
    case MODIFIED => assert Lower("MODIFIED") == "modified";
  }

  /** Constant names are written in capitals. */
  lemma NameIsCapitals(f: Field)
    ensures forall i :: 0 <= i < |Name(f)| ==> IsUpperLetter(Name(f)[i])
  {
  }

  lemma UpperOfLowerName(f: Field)
    ensures Upper(Lower(Name(f))) == Name(f)
  {
    NameIsCapitals(f);
    UpperOfLower(Name(f));
  }

  /** Round trip: every field is found again under its printed name. */
  lemma GetByNameToString(f: Field)
    ensures GetByName(ToString(f)) == Some(f)
  {
    ToStringIsLowerName(f);
    UpperOfLowerName(f);
    GetByNameOfName(ToString(f), f);
  }

  /** createTerm: the lower-case field name as key, the text unchanged. */
  function CreateTerm(f: Field, text: string): (t: Term)
    ensures t.field == ToString(f) && t.text == text
    ensures GetByName(t.field) == Some(f)
  {
    GetByNameToString(f);
    Term(ToString(f), text)
  }

  /** fromTerm: the field a term's key names, if any. */
  function FromTerm(t: Term): Option<Field>
  {
    GetByName(t.field)
  }

  /** A term made for a field is recognised as that field's term. */
  lemma FromCreatedTerm(f: Field, text: string)
    ensures FromTerm(CreateTerm(f, text)) == Some(f)
  {
  }
}
