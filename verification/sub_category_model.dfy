/**
 * `CategorySubModel`: the body of create and update with its parent
 * existence refinement, the path id and the delete array with their own
 * existence refinements, and the list query.
 */
module SubCategoryModel {
  import opened Wrappers
  import opened Json
  import opened ValidatorHandler
  import opened Checks
  import opened Query
  import opened DbHelper
  import opened Schema
  import Strings
  import CategoryModel

  const CodeMax: nat := 20
  const NameMax: nat := 50

  /** A validated body; `category` is the parent's id. */
  datatype Body = Body(category: Uuid, code: string, name: string, isActive: bool)

  /** The refinement `isRecordExist({ table: categoriesTable, filters: eq(id, val) })`. */
  function CategoryFound(cs: seq<Category>): string -> bool {
    (s: string) => IsRecordExist(cs, Some(KeyIs(CategoryKey, s)))
  }

  /** The refinement `isRecordExist({ table: categorySubsTable, filters: eq(id, val) })`. */
  function SubFound(subs: seq<SubCategory>): string -> bool {
    (s: string) => IsRecordExist(subs, Some(KeyIs(SubKey, s)))
  }

  /** The probe answers whether some row has the id. */
  lemma CategoryFoundMeans(cs: seq<Category>)
    ensures forall s :: CategoryFound(cs)(s) <==> s in CategoryIds(cs)
  {
    forall s ensures CategoryFound(cs)(s) <==> s in CategoryIds(cs) {
      var found := IsRecordExist(cs, Some(KeyIs(CategoryKey, s)));
      if found {
        var i :| 0 <= i < |cs| && KeyIs(CategoryKey, s)(cs[i]);
        assert KeyIs(CategoryKey, s)(cs[i]) == (CategoryKey(cs[i]) == s);
      }
      if s in CategoryIds(cs) {
        var i :| 0 <= i < |cs| && cs[i].id == s;
        assert KeyIs(CategoryKey, s)(cs[i]) == (CategoryKey(cs[i]) == s);
      }
    }
  }

  lemma SubFoundMeans(subs: seq<SubCategory>)
    ensures forall s :: SubFound(subs)(s) <==> s in SubIds(subs)
  {
    forall s ensures SubFound(subs)(s) <==> s in SubIds(subs) {
      var found := IsRecordExist(subs, Some(KeyIs(SubKey, s)));
      if found {
        var i :| 0 <= i < |subs| && KeyIs(SubKey, s)(subs[i]);
        assert KeyIs(SubKey, s)(subs[i]) == (SubKey(subs[i]) == s);
      }
      if s in SubIds(subs) {
        var i :| 0 <= i < |subs| && subs[i].id == s;
        assert KeyIs(SubKey, s)(subs[i]) == (SubKey(subs[i]) == s);
      }
    }
  }

  /** `category` is a UUID naming an existing category. */
  predicate ParentOk(v: Value, cs: seq<Category>)
    requires v.Obj?
  {
    IsUuidStr(Field(v, "category")) && v.fields["category"].s in CategoryIds(cs)
  }

  predicate BodyOk(v: Value, cs: seq<Category>) {
    v.Obj? && ParentOk(v, cs) &&
    StrWithin(Field(v, "code"), CodeMax) && StrWithin(Field(v, "name"), NameMax) &&
    IsBool(Field(v, "is_active"))
  }

  function BodyBadKeys(v: Value, cs: seq<Category>): set<string> {
    if !v.Obj? then {"undefined"}
    else
      (if ParentOk(v, cs) then {} else {"category"}) +
      (if StrWithin(Field(v, "code"), CodeMax) then {} else {"code"}) +
      (if StrWithin(Field(v, "name"), NameMax) then {} else {"name"}) +
      (if IsBool(Field(v, "is_active")) then {} else {"is_active"})
  }

  /** The issues of the `category` field: format first, the lookup only for a well-formed UUID. */
  function ParentIssues(v: Value, cs: seq<Category>): (r: seq<Issue>)
    requires v.Obj?
    ensures r == [] <==> ParentOk(v, cs)
    ensures |r| <= 1 && AllAt(r, [Key("category")])
    ensures !IsUuidStr(Field(v, "category")) ==> r == CheckUuid(Field(v, "category"), [Key("category")])
  {
    var r := CheckUuidExists(Field(v, "category"), [Key("category")], CategoryFound(cs));
    CategoryFoundMeans(cs);
    r
  }

  /**
   * `categorySubJson`, used by both create and update: accepted iff the
   * parent exists and every other field is valid; otherwise the `errors`
   * keys are exactly the refused fields.
   */
  function ParseBody(v: Value, cs: seq<Category>): (r: Validation<Body>)
    ensures r.Success? <==> BodyOk(v, cs)
    ensures r.Success? ==>
      r.data == Body(v.fields["category"].s, v.fields["code"].s, v.fields["name"].s, v.fields["is_active"].b)
    ensures r.Failure? ==> Keys(r.issues) == BodyBadKeys(v, cs) && BodyBadKeys(v, cs) != {}
  {
    if !v.Obj? then
      KeysOne(IssueAt("invalid_type", []));
      Failure([IssueAt("invalid_type", [])])
    else
      var issues := FieldIssues(v, cs);
      if issues == [] then
        Success(Body(v.fields["category"].s, v.fields["code"].s, v.fields["name"].s, v.fields["is_active"].b))
      else
        Failure(issues)
  }

  /** The issues of the four fields of an object body, in field order. */
  function FieldIssues(v: Value, cs: seq<Category>): (r: seq<Issue>)
    requires v.Obj?
    ensures r == [] <==> BodyOk(v, cs)
    ensures Keys(r) == BodyBadKeys(v, cs)
  {
    var p := ParentIssues(v, cs);
    var a := CheckStringMax(Field(v, "code"), CodeMax, [Key("code")]);
    var b := CheckStringMax(Field(v, "name"), NameMax, [Key("name")]);
    var c := CheckBoolean(Field(v, "is_active"), [Key("is_active")]);
    KeysAt(p, "category");
    KeysAt(a, "code");
    KeysAt(b, "name");
    KeysAt(c, "is_active");
    KeysConcat(p, a);
    KeysConcat(p + a, b);
    KeysConcat(p + a + b, c);
    assert |p + a + b + c| == |p| + |a| + |b| + |c|;
    p + a + b + c
  }

  /** `abort: true`: a malformed parent id is refused without consulting the table. */
  lemma MalformedParentSkipsLookup(v: Value, cs1: seq<Category>, cs2: seq<Category>)
    requires v.Obj? && !IsUuidStr(Field(v, "category"))
    ensures ParseBody(v, cs1) == ParseBody(v, cs2)
  {
    assert ParentIssues(v, cs1) == ParentIssues(v, cs2);
  }

  /**
   * `categorySubParamId`: accepted iff the id is a UUID of an existing
   * sub-category; a malformed id is a format issue whatever the table holds.
   */
  function ParseId(id: string, subs: seq<SubCategory>): (r: Validation<Uuid>)
    ensures r.Success? <==> Strings.IsUuid(id) && id in SubIds(subs)
    ensures r.Success? ==> r.data == id
    ensures !Strings.IsUuid(id) ==> r == Failure([IssueAt("invalid_format", [Key("id")])])
    ensures r.Failure? ==> Keys(r.issues) == {"id"}
  {
    var issues := CheckUuidExists(Some(Str(id)), [Key("id")], SubFound(subs));
    SubFoundMeans(subs);
    KeysAt(issues, "id");
    if issues == [] then Success(id) else Failure(issues)
  }

  /**
   * `categorySubDelete`: accepted iff every element is a UUID of an existing
   * sub-category; each element that is not gets its own issue at its index.
   */
  function ParseIds(v: Value, subs: seq<SubCategory>): (r: Validation<seq<Uuid>>)
    ensures r.Success? <==> v.Arr? && forall j :: 0 <= j < |v.items| ==>
      IsUuidStr(Some(v.items[j])) && v.items[j].s in SubIds(subs)
    ensures r.Success? ==> (|r.data| == |v.items| &&
      forall j :: 0 <= j < |r.data| ==> r.data[j] in SubIds(subs) && Str(r.data[j]) == v.items[j])
  {
    var r := CheckUuidArray(v, SubFound(subs));
    SubFoundMeans(subs);
    assert v.Arr? ==> forall j :: 0 <= j < |v.items| ==>
      (ItemOk(v.items, j, SubFound(subs)) <==> IsUuidStr(Some(v.items[j])) && v.items[j].s in SubIds(subs));
    r
  }

  /** One unknown id rejects the whole delete, with an issue at its index. */
  lemma OneMissingRejects(v: Value, subs: seq<SubCategory>, j: nat)
    requires v.Arr? && j < |v.items| && v.items[j].Str? && v.items[j].s !in SubIds(subs)
    ensures ParseIds(v, subs).Failure? && HasIssueAt(ParseIds(v, subs).issues, j)
  {
    SubFoundMeans(subs);
    assert !ItemOk(v.items, j, SubFound(subs));
    FailingIndicesCarryIssues(v.items, SubFound(subs), 0);
  }

  /** `categorySubQuery`: the same columns, coercion and checks as `categoryQuery`. */
  function ParseQuery(raw: RawQuery): (r: Validation<ListQuery>)
    ensures r == CategoryModel.ParseQuery(raw)
  {
    Parse(raw, [Id, Code, Name, IsActive], true)
  }
}
