/**
 * `RoleModel`: the body of create and update, the path id, the list query
 * (no `is_active`), and the delete array whose refinement files one issue
 * per id that names no role.
 */
module RoleModel {
  import opened Wrappers
  import opened Json
  import opened ValidatorHandler
  import opened Checks
  import opened Query
  import opened DbHelper
  import opened Schema
  import Strings

  const CodeMax: nat := 20
  const NameMax: nat := 50

  datatype Body = Body(code: string, name: string, defPath: string)

  predicate BodyOk(v: Value) {
    v.Obj? && StrWithin(Field(v, "code"), CodeMax) && StrWithin(Field(v, "name"), NameMax) &&
    IsStr(Field(v, "def_path"))
  }

  function BodyBadKeys(v: Value): set<string> {
    if !v.Obj? then {"undefined"}
    else
      (if StrWithin(Field(v, "code"), CodeMax) then {} else {"code"}) +
      (if StrWithin(Field(v, "name"), NameMax) then {} else {"name"}) +
      (if IsStr(Field(v, "def_path")) then {} else {"def_path"})
  }

  /**
   * `bodyReq`, used by create and update: accepted iff code and name are
   * within their limits and `def_path` is a string.
   */
  function ParseBody(v: Value): (r: Validation<Body>)
    ensures r.Success? <==> BodyOk(v)
    ensures r.Success? ==>
      r.data == Body(v.fields["code"].s, v.fields["name"].s, v.fields["def_path"].s)
    ensures r.Failure? ==> Keys(r.issues) == BodyBadKeys(v) && BodyBadKeys(v) != {}
  {
    if !v.Obj? then
      KeysOne(IssueAt("invalid_type", []));
      Failure([IssueAt("invalid_type", [])])
    else
      var a := CheckStringMax(Field(v, "code"), CodeMax, [Key("code")]);
      var b := CheckStringMax(Field(v, "name"), NameMax, [Key("name")]);
      var c := CheckString(Field(v, "def_path"), [Key("def_path")]);
      KeysAt(a, "code");
      KeysAt(b, "name");
      KeysAt(c, "def_path");
      KeysConcat(a, b);
      KeysConcat(a + b, c);
      if a + b + c == [] then
        Success(Body(v.fields["code"].s, v.fields["name"].s, v.fields["def_path"].s))
      else
        Failure(a + b + c)
  }

  /** The refinement `isRecordExist({ table: rolesTable, filters: eq(id, val) })`. */
  function RoleFound(roles: seq<Role>): string -> bool {
    (s: string) => IsRecordExist(roles, Some(KeyIs(RoleKey, s)))
  }

  lemma RoleFoundMeans(roles: seq<Role>)
    ensures forall s :: RoleFound(roles)(s) <==> s in RoleIds(roles)
  {
    forall s ensures RoleFound(roles)(s) <==> s in RoleIds(roles) {
      var found := IsRecordExist(roles, Some(KeyIs(RoleKey, s)));
      if found {
        var i :| 0 <= i < |roles| && KeyIs(RoleKey, s)(roles[i]);
        assert KeyIs(RoleKey, s)(roles[i]) == (RoleKey(roles[i]) == s);
      }
      if s in RoleIds(roles) {
        var i :| 0 <= i < |roles| && roles[i].id == s;
        assert KeyIs(RoleKey, s)(roles[i]) == (RoleKey(roles[i]) == s);
      }
    }
  }

  /** `pathParamId`: accepted iff the id is a UUID of an existing role. */
  function ParseId(id: string, roles: seq<Role>): (r: Validation<Uuid>)
    ensures r.Success? <==> Strings.IsUuid(id) && id in RoleIds(roles)
    ensures r.Success? ==> r.data == id
    ensures !Strings.IsUuid(id) ==> r == Failure([IssueAt("invalid_format", [Key("id")])])
    ensures r.Failure? ==> Keys(r.issues) == {"id"}
  {
    var issues := CheckUuidExists(Some(Str(id)), [Key("id")], RoleFound(roles));
    RoleFoundMeans(roles);
    KeysAt(issues, "id");
    if issues == [] then Success(id) else Failure(issues)
  }

  const Orderable: seq<Column> := [Id, Code, Name]

  lemma OrderableNames(o: string)
    ensures Allowed(o, Orderable) <==> o in {"id", "code", "name"}
  {
    if o in {"id", "code", "name"} {
      assert ColumnName(Orderable[0]) == "id" && ColumnName(Orderable[1]) == "code";
      assert ColumnName(Orderable[2]) == "name";
    }
  }

  /**
   * `dataQueryString`: `order` is one of id, code and name, and there is no
   * `is_active` field, so the list never filters on it.
   */
  function ParseQuery(raw: RawQuery): (r: Validation<ListQuery>)
    ensures r.Success? <==>
      DirOk(raw) && (raw.order.None? || raw.order.value in {"id", "code", "name"})
    ensures r.Success? ==> r.data.isActive.None? && (r.data.order.Some? ==> r.data.order.value != IsActive)
    ensures r.Success? ==> PassesThrough(raw, r.data)
    ensures r.Failure? ==> Keys(r.issues) == BadKeys(raw, Orderable)
  {
    OrderableNames(raw.order.GetOr(""));
    Parse(raw, Orderable, false)
  }

  // ----- bodyDelete -----

  /** The elements of an array that are all UUID strings. */
  predicate AllUuids(v: Value) {
    v.Arr? && forall j :: 0 <= j < |v.items| ==> IsUuidStr(Some(v.items[j]))
  }

  /** The element checks of `z.uuid({ abort: true }).array()` pass iff every element is a UUID string. */
  lemma ElementChecks(v: Value)
    requires v.Arr?
    ensures CheckUuidItems(v.items, Anything, 0) == [] <==> AllUuids(v)
  {
    assert forall j :: 0 <= j < |v.items| ==> (ItemOk(v.items, j, Anything) <==> IsUuidStr(Some(v.items[j])));
  }

  /**
   * The refinement's issues over the first `n` values: a `custom` issue at
   * each index whose value is not in `known`, in index order.
   */
  function MissingIssues(values: seq<Uuid>, known: set<Uuid>, n: nat): seq<Issue>
    requires n <= |values|
  {
    if n == 0 then []
    else
      MissingIssues(values, known, n - 1) +
      (if values[n - 1] in known then [] else [IssueAt("custom", [Index(n - 1)])])
  }

  /** Every issue sits at an index below `n` whose value is unknown. */
  predicate IssuesAtUnknown(r: seq<Issue>, values: seq<Uuid>, known: set<Uuid>, n: nat)
    requires n <= |values|
  {
    forall k :: 0 <= k < |r| ==>
      |r[k].path| == 1 && r[k].path[0].Index? && r[k].path[0].i < n && values[r[k].path[0].i] !in known
  }

  /** No issue is filed at an index whose value is known. */
  lemma {:induction false} MissingIssuesSound(values: seq<Uuid>, known: set<Uuid>, n: nat)
    requires n <= |values|
    ensures IssuesAtUnknown(MissingIssues(values, known, n), values, known, n)
  {
    if n > 0 {
      MissingIssuesSound(values, known, n - 1);
      var prev := MissingIssues(values, known, n - 1);
      var r := MissingIssues(values, known, n);
      forall k | 0 <= k < |r|
        ensures |r[k].path| == 1 && r[k].path[0].Index? && r[k].path[0].i < n && values[r[k].path[0].i] !in known
      {
        if k < |prev| { assert r[k] == prev[k]; }
      }
    }
  }

  /** Every index whose value is unknown carries an issue. */
  lemma {:induction false} MissingIssuesComplete(values: seq<Uuid>, known: set<Uuid>, n: nat)
    requires n <= |values|
    ensures forall j :: 0 <= j < n && values[j] !in known ==> HasIssueAt(MissingIssues(values, known, n), j)
  {
    if n > 0 {
      MissingIssuesComplete(values, known, n - 1);
      var prev := MissingIssues(values, known, n - 1);
      var r := MissingIssues(values, known, n);
      forall j | 0 <= j < n && values[j] !in known ensures HasIssueAt(r, j) {
        if j < n - 1 {
          var k :| 0 <= k < |prev| && AtIndex(prev[k], j);
          assert r[k] == prev[k];
        } else {
          assert AtIndex(r[|prev|], j);
        }
      }
    }
  }

  /** An index carries an issue iff its value is unknown; there are none iff every value is known. */
  lemma MissingIssuesAt(values: seq<Uuid>, known: set<Uuid>, n: nat)
    requires n <= |values|
    ensures forall j :: 0 <= j < n ==> (HasIssueAt(MissingIssues(values, known, n), j) <==> values[j] !in known)
    ensures MissingIssues(values, known, n) == [] <==> forall j :: 0 <= j < n ==> values[j] in known
  {
    MissingIssuesSound(values, known, n);
    MissingIssuesComplete(values, known, n);
    var r := MissingIssues(values, known, n);
    forall j | 0 <= j < n && HasIssueAt(r, j) ensures values[j] !in known {
      var k :| 0 <= k < |r| && AtIndex(r[k], j);
    }
    if r != [] {
      assert r[0].path[0].i < n && values[r[0].path[0].i] !in known;
    }
  }

  /** A repeated id is judged the same way at each of its indices. */
  lemma DuplicatesCheckedAlike(values: seq<Uuid>, known: set<Uuid>, i: nat, j: nat)
    requires i < |values| && j < |values| && values[i] == values[j]
    ensures HasIssueAt(MissingIssues(values, known, |values|), i) <==> HasIssueAt(MissingIssues(values, known, |values|), j)
  {
    MissingIssuesAt(values, known, |values|);
  }

  /** `SELECT id FROM roles WHERE id IN values` finds a listed id iff some role has it. */
  lemma SelectedIds(roles: seq<Role>, values: seq<Uuid>, id: Uuid)
    requires id in values
    ensures id in KeysOf(Select(roles, Some(Listed(RoleKey, values))), RoleKey) <==> id in RoleIds(roles)
  {
    ListedKeys(roles, RoleKey, values, id);
    if id in RoleIds(roles) {
      var i :| 0 <= i < |roles| && roles[i].id == id;
      assert RoleKey(roles[i]) == id;
    }
  }

  /**
   * `bodyDelete`: the element checks first; only when every element is a
   * UUID does the refinement select the existing ids among the values and
   * file a `custom` issue at each index whose id it did not find.
   */
  method ParseIds(v: Value, roles: seq<Role>) returns (r: Validation<seq<Uuid>>)
    ensures !v.Arr? ==> r == Failure([IssueAt("invalid_type", [])])
    ensures v.Arr? && !AllUuids(v) ==> r == Failure(CheckUuidItems(v.items, Anything, 0))
    ensures AllUuids(v) ==> (r.Success? <==> forall j :: 0 <= j < |v.items| ==> v.items[j].s in RoleIds(roles))
    ensures AllUuids(v) && r.Failure? ==> r.issues == MissingIssues(Texts(v.items), RoleIds(roles), |v.items|)
    ensures r.Success? ==> AllUuids(v) && r.data == Texts(v.items)
  {
    if !v.Arr? {
      return Failure([IssueAt("invalid_type", [])]);
    }
    var elementIssues := CheckUuidItems(v.items, Anything, 0);
    ElementChecks(v);
    if elementIssues != [] {
      return Failure(elementIssues);
    }
    var values := Texts(v.items);
    // SELECT id FROM roles WHERE id IN values
    var data := KeysOf(Select(roles, Some(Listed(RoleKey, values))), RoleKey);
    forall j | 0 <= j < |values| ensures values[j] in data <==> values[j] in RoleIds(roles) {
      SelectedIds(roles, values, values[j]);
    }
    var issues := FileMissing(values, data, RoleIds(roles));
    MissingIssuesAt(values, RoleIds(roles), |values|);
    if issues == [] {
      r := Success(values);
    } else {
      r := Failure(issues);
    }
  }

  /** The refinement's `forEach`: a `custom` issue at each index whose id the query did not return. */
  method FileMissing(values: seq<Uuid>, data: seq<Uuid>, ghost known: set<Uuid>) returns (issues: seq<Issue>)
    requires forall j :: 0 <= j < |values| ==> (values[j] in data <==> values[j] in known)
    ensures issues == MissingIssues(values, known, |values|)
  {
    issues := [];
    for index := 0 to |values|
      invariant issues == MissingIssues(values, known, index)
    {
      if values[index] !in data {
        issues := issues + [IssueAt("custom", [Index(index)])];
      }
    }
  }
}
