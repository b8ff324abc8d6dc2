/**
 * The list query string: `commonDataPagingQueryString` intersected with a
 * per-entity object that narrows `order` to an allow-list of columns and,
 * for categories and sub-categories, coerces `is_active` to a boolean.
 */
module Query {
  import opened Wrappers
  import opened ValidatorHandler
  import opened Ordering
  import Checks
  import Strings

  /**
   * The query parameters as the validator receives them; `page` and
   * `page_size` are taken after their numeric conversion.
   */
  datatype RawQuery = RawQuery(
    search: Option<string>, page: Option<int>, pageSize: Option<int>,
    order: Option<string>, dir: Option<string>, isActive: Option<string>)

  /** A column a list can be ordered by. */
  datatype Column = Id | Code | Name | IsActive

  function ColumnName(c: Column): string {
    match c
    case Id => "id"
    case Code => "code"
    case Name => "name"
    case IsActive => "is_active"
  }

  /** The validated query. */
  datatype ListQuery = ListQuery(
    search: Option<string>, page: Option<int>, pageSize: Option<int>,
    order: Option<Column>, dir: Option<Dir>, isActive: Option<bool>)

  /** `order` names one of the allowed columns. */
  predicate Allowed(name: string, allowed: seq<Column>) {
    exists i :: 0 <= i < |allowed| && ColumnName(allowed[i]) == name
  }

  /** The allowed column called `name`. */
  function ColumnNamed(name: string, allowed: seq<Column>): (r: Option<Column>)
    ensures r.Some? <==> Allowed(name, allowed)
    ensures r.Some? ==> r.value in allowed && ColumnName(r.value) == name
  {
    if allowed == [] then None
    else if ColumnName(allowed[0]) == name then Some(allowed[0])
    else
      var r := ColumnNamed(name, allowed[1..]);
      assert Allowed(name, allowed) ==> ColumnName(allowed[0]) == name || Allowed(name, allowed[1..]) by {
        if Allowed(name, allowed) {
          var i :| 0 <= i < |allowed| && ColumnName(allowed[i]) == name;
          if i > 0 { assert allowed[1..][i - 1] == allowed[i]; }
        }
      }
      assert Allowed(name, allowed[1..]) ==> Allowed(name, allowed) by {
        if Allowed(name, allowed[1..]) {
          var i :| 0 <= i < |allowed[1..]| && ColumnName(allowed[1..][i]) == name;
          assert allowed[i + 1] == allowed[1..][i];
        }
      }
      r
  }

  /** `z.enum(["asc", "desc"])`. */
  function DirNamed(name: string): (r: Option<Dir>)
    ensures r.Some? <==> name == "asc" || name == "desc"
    ensures r == Some(Asc) <==> name == "asc"
  {
    if name == "asc" then Some(Asc) else if name == "desc" then Some(Desc) else None
  }

  /**
   * The `is_active` transform: an absent or empty value gives undefined,
   * any other value whether its lower-case form is "true".
   */
  function CoerceIsActive(s: Option<string>): Option<bool> {
    if s.None? || s.value == "" then None else Some(Strings.Lower(s.value) == "true")
  }

  /** The parameter is absent or one of the accepted names. */
  predicate DirOk(raw: RawQuery) {
    raw.dir.None? || DirNamed(raw.dir.value).Some?
  }

  predicate OrderOk(raw: RawQuery, allowed: seq<Column>) {
    raw.order.None? || Allowed(raw.order.value, allowed)
  }

  /** The fields whose values the query schema refuses. */
  function BadKeys(raw: RawQuery, allowed: seq<Column>): set<string> {
    (if DirOk(raw) then {} else {"dir"}) + (if OrderOk(raw, allowed) then {} else {"order"})
  }

  /**
   * The validated query carries the raw search, page and page size
   * unchanged, and the column and direction the raw text names.
   */
  predicate PassesThrough(raw: RawQuery, q: ListQuery) {
    q.search == raw.search && q.page == raw.page && q.pageSize == raw.pageSize &&
    (q.order.Some? <==> raw.order.Some?) &&
    (q.order.Some? ==> ColumnName(q.order.value) == raw.order.value) &&
    (q.dir.Some? <==> raw.dir.Some?) &&
    (q.dir == Some(Asc) <==> raw.dir == Some("asc"))
  }

  /** The issues of the two halves of the intersection: `dir` from the common part, `order` from the narrowed one. */
  function QueryIssues(raw: RawQuery, allowed: seq<Column>): seq<Issue> {
    (if DirOk(raw) then [] else [Checks.IssueAt("invalid_value", [Key("dir")])]) +
    (if OrderOk(raw, allowed) then [] else [Checks.IssueAt("invalid_value", [Key("order")])])
  }

  lemma QueryIssueKeys(raw: RawQuery, allowed: seq<Column>)
    ensures Keys(QueryIssues(raw, allowed)) == BadKeys(raw, allowed)
  {
    var issues := QueryIssues(raw, allowed);
    if !DirOk(raw) { assert KeyOf(issues[0]) == "dir"; }
    if !OrderOk(raw, allowed) { assert KeyOf(issues[|issues| - 1]) == "order"; }
  }

  /**
   * The list query schema with the given `order` allow-list; `withActive`
   * says whether it has the coerced `is_active` field.
   */
  function Parse(raw: RawQuery, allowed: seq<Column>, withActive: bool): (r: Validation<ListQuery>)
    ensures r.Success? <==> DirOk(raw) && OrderOk(raw, allowed)
    ensures r.Failure? ==> Keys(r.issues) == BadKeys(raw, allowed) && BadKeys(raw, allowed) != {}
    ensures r.Success? ==> PassesThrough(raw, r.data)
    ensures r.Success? ==>
      (r.data.order.Some? ==> r.data.order.value in allowed) &&
      r.data.isActive == (if withActive then CoerceIsActive(raw.isActive) else None)
  {
    var issues := QueryIssues(raw, allowed);
    QueryIssueKeys(raw, allowed);
    if issues != [] then Failure(issues)
    else
      Success(ListQuery(
        raw.search, raw.page, raw.pageSize,
        if raw.order.Some? then ColumnNamed(raw.order.value, allowed) else None,
        if raw.dir.Some? then DirNamed(raw.dir.value) else None,
        if withActive then CoerceIsActive(raw.isActive) else None))
  }

  /** A value coerces to true iff it spells "true" in any mix of cases. */
  lemma CoerceTrueIgnoresCase(s: string)
    ensures CoerceIsActive(Some(s)) == Some(true) <==>
      |s| == 4 && (s[0] == 't' || s[0] == 'T') && (s[1] == 'r' || s[1] == 'R') &&
      (s[2] == 'u' || s[2] == 'U') && (s[3] == 'e' || s[3] == 'E')
  {
    Strings.LowerLength(s);
    if |s| == 4 {
      var l := Strings.Lower(s);
      Strings.LowerAt(s, 0);
      Strings.LowerAt(s, 1);
      Strings.LowerAt(s, 2);
      Strings.LowerAt(s, 3);
      assert l == "true" <==> l[0] == 't' && l[1] == 'r' && l[2] == 'u' && l[3] == 'e';
    }
  }

  /** Absence and the empty string leave the filter off; any other value turns it on. */
  lemma CoerceAbsentOrEmpty(s: Option<string>)
    ensures CoerceIsActive(s).None? <==> s.None? || s.value == ""
  {
  }

  /** Worked example of the coercion: "TRUE" gives true, "yes" and "false" give false. */
  lemma CoerceExamples()
    ensures CoerceIsActive(Some("TRUE")) == Some(true)
    ensures CoerceIsActive(Some("yes")) == Some(false)
    ensures CoerceIsActive(Some("false")) == Some(false)
  {
    CoerceTrueIgnoresCase("TRUE");
    CoerceTrueIgnoresCase("yes");
    CoerceTrueIgnoresCase("false");
  }
}
