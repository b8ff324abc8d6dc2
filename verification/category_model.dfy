/**
 * `CategoryModel`: the body accepted by create and update, the path id of
 * get and update, the id array of delete, and the list query.
 */
module CategoryModel {
  import opened Wrappers
  import opened Json
  import opened ValidatorHandler
  import opened Checks
  import opened Query
  import Schema
  import Strings

  /** `z.string().max(20)` on `code` and `z.string().max(50)` on `name`. */
  const CodeMax: nat := 20
  const NameMax: nat := 50

  /** A validated body: the object the handlers insert or set. */
  datatype Body = Body(code: string, name: string, isActive: bool)

  /** Every field holds the type and size the schema asks for. */
  predicate BodyOk(v: Value) {
    v.Obj? && StrWithin(Field(v, "code"), CodeMax) && StrWithin(Field(v, "name"), NameMax) &&
    IsBool(Field(v, "is_active"))
  }

  /** The fields the schema refuses; a non-object is refused at its root. */
  function BodyBadKeys(v: Value): set<string> {
    if !v.Obj? then {"undefined"}
    else
      (if StrWithin(Field(v, "code"), CodeMax) then {} else {"code"}) +
      (if StrWithin(Field(v, "name"), NameMax) then {} else {"name"}) +
      (if IsBool(Field(v, "is_active")) then {} else {"is_active"})
  }

  /**
   * `categoryCreate` and `categoryUpdate`, which are the same object schema:
   * accepted iff every field is valid; otherwise the `errors` keys are
   * exactly the refused fields.
   */
  function ParseBody(v: Value): (r: Validation<Body>)
    ensures r.Success? <==> BodyOk(v)
    ensures r.Success? ==>
      r.data == Body(v.fields["code"].s, v.fields["name"].s, v.fields["is_active"].b)
    ensures r.Failure? ==> Keys(r.issues) == BodyBadKeys(v) && BodyBadKeys(v) != {}
  {
    if !v.Obj? then
      KeysOne(IssueAt("invalid_type", []));
      Failure([IssueAt("invalid_type", [])])
    else
      var a := CheckStringMax(Field(v, "code"), CodeMax, [Key("code")]);
      var b := CheckStringMax(Field(v, "name"), NameMax, [Key("name")]);
      var c := CheckBoolean(Field(v, "is_active"), [Key("is_active")]);
      KeysAt(a, "code");
      KeysAt(b, "name");
      KeysAt(c, "is_active");
      KeysConcat(a, b);
      KeysConcat(a + b, c);
      if a + b + c == [] then
        Success(Body(v.fields["code"].s, v.fields["name"].s, v.fields["is_active"].b))
      else
        Failure(a + b + c)
  }

  /** The columns `order` may name. */
  const Orderable: seq<Column> := [Id, Code, Name, IsActive]

  /**
   * `categoryQuery`: `dir` must be asc or desc, `order` one of id, code, name
   * and is_active; `is_active` is coerced from its text.
   */
  function ParseQuery(raw: RawQuery): (r: Validation<ListQuery>)
    ensures r.Success? <==>
      DirOk(raw) && (raw.order.None? || raw.order.value in {"id", "code", "name", "is_active"})
    ensures r.Success? ==> r.data.isActive == CoerceIsActive(raw.isActive)
    ensures r.Success? ==> PassesThrough(raw, r.data)
    ensures r.Failure? ==> Keys(r.issues) == BadKeys(raw, Orderable)
  {
    OrderableNames(raw.order.GetOr(""));
    Parse(raw, Orderable, true)
  }

  lemma OrderableNames(o: string)
    ensures Allowed(o, Orderable) <==> o in {"id", "code", "name", "is_active"}
  {
    if o in {"id", "code", "name", "is_active"} {
      assert ColumnName(Orderable[0]) == "id" && ColumnName(Orderable[1]) == "code";
      assert ColumnName(Orderable[2]) == "name" && ColumnName(Orderable[3]) == "is_active";
    }
  }

  /** `z.object({ id: z.uuid() })` on the path of get and update. */
  function ParseId(id: string): (r: Validation<string>)
    ensures r.Success? <==> Strings.IsUuid(id)
    ensures r.Success? ==> r.data == id
    ensures r.Failure? ==> Keys(r.issues) == {"id"}
  {
    var issues := CheckUuid(Some(Str(id)), [Key("id")]);
    KeysAt(issues, "id");
    if issues == [] then Success(id) else Failure(issues)
  }

  /** `z.array(z.uuid())` on the body of delete. */
  function ParseIds(v: Value): (r: Validation<seq<string>>)
    ensures r.Success? <==> v.Arr? && forall j :: 0 <= j < |v.items| ==> IsUuidStr(Some(v.items[j]))
    ensures r.Success? ==> (|r.data| == |v.items| &&
      forall j :: 0 <= j < |r.data| ==> Strings.IsUuid(r.data[j]) && Str(r.data[j]) == v.items[j])
  {
    var r := CheckUuidArray(v, Anything);
    assert v.Arr? ==> forall j :: 0 <= j < |v.items| ==> (ItemOk(v.items, j, Anything) <==> IsUuidStr(Some(v.items[j])));
    r
  }

  /**
   * The validator accepts codes longer than the column: a code of 11 to 20
   * characters passes, and the database can store it only when everything
   * past the tenth character is a space, which it then cuts off.
   */
  lemma LongCodePassesValidation(v: Value, id: Schema.Uuid, now: Schema.Timestamp)
    requires BodyOk(v) && |v.fields["code"].s| > Schema.CategoryCodeLength
    ensures ParseBody(v).Success?
    ensures var b := ParseBody(v).data;
      var row := Schema.NewCategory(id, b.code, b.name, Some(b.isActive), now);
      !Schema.CategoryFits(row) &&
      (Schema.CategoryStorable(row) <==> forall i :: Schema.CategoryCodeLength <= i < |b.code| ==> b.code[i] == ' ') &&
      Schema.StoreCategory(row).code == b.code[..Schema.CategoryCodeLength]
  {
  }
}
