/**
 * The sort-column allow-list: a requested column is valid when the first
 * property of the entity type whose name equals it, ignoring case, is a
 * `string` or an `int` property.
 */
module SortColumns {
  import opened Wrappers
  import opened Strings

  /** The property types that occur on the entities. */
  datatype PropertyType = StringType | IntType | ByteArrayType | EntityRef(typeName: string)

  datatype Property = Property(name: string, propertyType: PropertyType)

  /** A type as reflection describes it: its public properties in declaration order. */
  type EntityType = seq<Property>

  /** The properties of the series input record. */
  const SeriesDtoType: EntityType := [
    Property("Id", IntType),
    Property("UserID", StringType),
    Property("TitleWatched", StringType),
    Property("SeasonWatched", IntType),
    Property("ProviderWatched", StringType),
    Property("Genre", StringType)
  ]

  /** The properties of the stored series entity, which the listing sorts. */
  const SeriesModelType: EntityType := [
    Property("SeriesID", IntType),
    Property("UserID", StringType),
    Property("TitleWatched", StringType),
    Property("SeasonWatched", IntType),
    Property("Provider", StringType),
    Property("Genre", StringType),
    Property("ApiUsers", EntityRef("ApiUsers")),
    Property("RowVersion", ByteArrayType)
  ]

  /** The object handed to the validator: null, a string, or any other object. */
  datatype Value = Null | Text(s: string) | OtherObject

  /** `value as string`. */
  function AsString(v: Value): Option<string> {
    match v
    case Text(s) => Some(s)
    case _ => None
  }

  /** A failed validation; success is represented by null. */
  datatype ValidationResult = ValidationResult(errorMessage: string)

  const ErrorMessage: string := "Value must match an existing column."

  predicate IsSortable(t: PropertyType) {
    t == StringType || t == IntType
  }

  /** Property `i` is the first whose name equals `name` ignoring case. */
  predicate IsFirstMatch(props: EntityType, name: string, i: int) {
    && 0 <= i < |props|
    && EqualsIgnoreCase(props[i].name, name)
    && forall j :: 0 <= j < i ==> !EqualsIgnoreCase(props[j].name, name)
  }

  /** What the allow-list admits: the first property named `name` (ignoring case) is sortable. */
  ghost predicate Accepts(props: EntityType, name: string) {
    exists i :: IsFirstMatch(props, name, i) && IsSortable(props[i].propertyType)
  }

  /** `FirstOrDefault(p => p.Name.Equals(name, OrdinalIgnoreCase))`, as an index. */
  function FindFirst(props: EntityType, name: string): (r: Option<nat>)
    ensures r.Some? ==> IsFirstMatch(props, name, r.value)
    ensures r.None? ==> forall j :: 0 <= j < |props| ==> !EqualsIgnoreCase(props[j].name, name)
  {
    if props == [] then None
    else if EqualsIgnoreCase(props[0].name, name) then Some(0)
    else
      match FindFirst(props[1..], name)
      case None => None
      case Some(i) => Some(i + 1)
  }

  /**
   * `SortColumnValidatorAttribute.IsValid`: null (success) exactly when the
   * entity type is set, the value is a string, and the allow-list admits it;
   * otherwise a result carrying the fixed error message.
   */
  function IsValid(entityType: Option<EntityType>, value: Value): (r: Option<ValidationResult>)
    ensures r.None? <==> entityType.Some? && value.Text? && Accepts(entityType.value, value.s)
    ensures r.Some? ==> r.value.errorMessage == ErrorMessage
  {
    if entityType.Some? then
      var property := if AsString(value).Some? then FindFirst(entityType.value, AsString(value).value) else None;
      if property.Some? && IsSortable(entityType.value[property.value].propertyType) then None
      else Some(ValidationResult(ErrorMessage))
    else Some(ValidationResult(ErrorMessage))
  }

  // ---------------------------------------------------------------------
  // Properties of the allow-list.
  // ---------------------------------------------------------------------

  /** Null, a non-string value and a missing entity type are always rejected. */
  lemma RejectsNullAndNonStrings(entityType: Option<EntityType>, value: Value)
    requires entityType.None? || !value.Text?
    ensures IsValid(entityType, value) == Some(ValidationResult(ErrorMessage))
  {
  }

  /** Names that differ only in the case of letters are judged alike. */
  lemma {:induction false} CaseInsensitive(props: EntityType, a: string, b: string)
    requires EqualsIgnoreCase(a, b)
    ensures IsValid(Some(props), Text(a)) == IsValid(Some(props), Text(b))
  {
    FindFirstIgnoresCase(props, a, b);
  }

  lemma {:induction false} FindFirstIgnoresCase(props: EntityType, a: string, b: string)
    requires EqualsIgnoreCase(a, b)
    ensures FindFirst(props, a) == FindFirst(props, b)
    decreases |props|
  {
    if props != [] {
      var n := props[0].name;
      EqualsIgnoreCaseIsEquivalence(n, a, b);
      EqualsIgnoreCaseIsEquivalence(n, b, a);
      FindFirstIgnoresCase(props[1..], a, b);
    }
  }

  /** The default column and its lower-case spelling both pass the series allow-list. */
  lemma TitleWatchedAccepted()
    ensures IsValid(Some(SeriesDtoType), Text("TitleWatched")).None?
    ensures IsValid(Some(SeriesDtoType), Text("titlewatched")).None?
  {
    assert FindFirst(SeriesDtoType, "TitleWatched") == Some(2);
    assert EqualsIgnoreCase("TitleWatched", "titlewatched");
    CaseInsensitive(SeriesDtoType, "TitleWatched", "titlewatched");
  }

  /** The search returns the first match, whichever it is. */
  lemma {:induction false} FindFirstFinds(props: EntityType, name: string, i: int)
    requires IsFirstMatch(props, name, i)
    ensures FindFirst(props, name) == Some(i)
  {
  }

  /** Two names differ, ignoring case, when their lengths or one pair of letters differ. */
  lemma DifferentNames(a: string, b: string, i: int)
    requires |a| != |b| || (0 <= i < |a| && i < |b| && ToUpper(a[i]) != ToUpper(b[i]))
    ensures !EqualsIgnoreCase(a, b)
  {
  }

  /** A property of another type is rejected even though its name matches. */
  lemma OtherTypesRejected()
    ensures IsValid(Some(SeriesModelType), Text("RowVersion")).Some?
    ensures IsValid(Some(SeriesModelType), Text("ApiUsers")).Some?
  {
    var m := SeriesModelType;
    forall j | 0 <= j < 7 ensures !EqualsIgnoreCase(m[j].name, "RowVersion") {
      DifferentNames(m[j].name, "RowVersion", 0);
    }
    FindFirstFinds(m, "RowVersion", 7);
    forall j | 0 <= j < 6 ensures !EqualsIgnoreCase(m[j].name, "ApiUsers") {
      DifferentNames(m[j].name, "ApiUsers", 0);
    }
    FindFirstFinds(m, "ApiUsers", 6);
  }

  /**
   * Only the first name match is examined: a later sortable property whose
   * name differs only in case does not make the value valid.
   */
  lemma OnlyFirstMatchExamined()
    ensures var props := [Property("Tag", EntityRef("Tag")), Property("TAG", StringType)];
            IsValid(Some(props), Text("tag")).Some?
  {
    var props := [Property("Tag", EntityRef("Tag")), Property("TAG", StringType)];
    assert EqualsIgnoreCase("Tag", "tag");
    assert FindFirst(props, "tag") == Some(0);
  }

  /** No two property names equal ignoring case (true of both entities here). */
  predicate NamesDistinctIgnoringCase(props: EntityType) {
    forall i, j :: 0 <= i < j < |props| ==> !EqualsIgnoreCase(props[i].name, props[j].name)
  }

  /** With names distinct ignoring case, a value is valid iff some sortable property has its name. */
  lemma AcceptsIffSomeSortable(props: EntityType, name: string)
    requires NamesDistinctIgnoringCase(props)
    ensures Accepts(props, name) <==>
            exists i :: 0 <= i < |props| && EqualsIgnoreCase(props[i].name, name) && IsSortable(props[i].propertyType)
  {
    if i :| 0 <= i < |props| && EqualsIgnoreCase(props[i].name, name) && IsSortable(props[i].propertyType) {
      forall j | 0 <= j < i ensures !EqualsIgnoreCase(props[j].name, name) {
        if EqualsIgnoreCase(props[j].name, name) {
          EqualsIgnoreCaseIsEquivalence(props[j].name, name, props[i].name);
          EqualsIgnoreCaseIsEquivalence(name, props[i].name, props[i].name);
        }
      }
      assert IsFirstMatch(props, name, i);
    }
  }

  /**
   * The request's allow-list is built from the input record, but the sort
   * runs on the stored entity: "Id" and "ProviderWatched" pass the
   * allow-list yet name no property of the stored entity.
   */
  lemma AllowListAdmitsNonColumns()
    ensures IsValid(Some(SeriesDtoType), Text("Id")).None?
    ensures IsValid(Some(SeriesDtoType), Text("ProviderWatched")).None?
    ensures FindFirst(SeriesModelType, "Id").None?
    ensures FindFirst(SeriesModelType, "ProviderWatched").None?
  {
    var d, m := SeriesDtoType, SeriesModelType;
    FindFirstFinds(d, "Id", 0);
    forall j | 0 <= j < 4 ensures !EqualsIgnoreCase(d[j].name, "ProviderWatched") {
      DifferentNames(d[j].name, "ProviderWatched", 0);
    }
    FindFirstFinds(d, "ProviderWatched", 4);
    forall j | 0 <= j < |m| ensures !EqualsIgnoreCase(m[j].name, "Id") && !EqualsIgnoreCase(m[j].name, "ProviderWatched") {
      DifferentNames(m[j].name, "Id", 0);
      DifferentNames(m[j].name, "ProviderWatched", 0);
    }
  }

  /** Conversely, the stored entity's "SeriesID" and "Provider" columns are refused by the allow-list. */
  lemma AllowListRefusesColumns()
    ensures IsValid(Some(SeriesModelType), Text("SeriesID")).None?
    ensures IsValid(Some(SeriesDtoType), Text("SeriesID")).Some?
    ensures IsValid(Some(SeriesModelType), Text("Provider")).None?
    ensures IsValid(Some(SeriesDtoType), Text("Provider")).Some?
  {
    var d, m := SeriesDtoType, SeriesModelType;
    FindFirstFinds(m, "SeriesID", 0);
    forall j | 0 <= j < |d| ensures !EqualsIgnoreCase(d[j].name, "SeriesID") && !EqualsIgnoreCase(d[j].name, "Provider") {
      DifferentNames(d[j].name, "SeriesID", 0);
      DifferentNames(d[j].name, "Provider", 0);
    }
    forall j | 0 <= j < 4 ensures !EqualsIgnoreCase(m[j].name, "Provider") {
      DifferentNames(m[j].name, "Provider", 0);
    }
    FindFirstFinds(m, "Provider", 4);
  }
}
