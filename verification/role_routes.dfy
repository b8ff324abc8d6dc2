/**
 * The `/roles` handlers. The list searches code and name only; list and
 * get render a role as a JSON object, the list under the key `def_ath` and
 * get under `def_path`. The database keeps only the primary key of roles,
 * so the 409 checks of create and update are what keeps codes unique.
 */
module RoleRoutes {
  import opened Wrappers
  import opened Json
  import opened ValidatorHandler
  import opened Ordering
  import opened DbHelper
  import opened Paging
  import opened Query
  import opened Schema
  import opened Responses
  import opened Checks
  import Db
  import Strings
  import RoleModel

  /** A list entry: `{ id, code, name, def_ath: def_path }`. */
  function ListEntry(r: Role): Value {
    Obj(map["id" := Str(r.id), "code" := Str(r.code), "name" := Str(r.name), "def_ath" := Str(r.defPath)])
  }

  /** The record of get: `{ id, code, name, def_path }`. */
  function GetEntry(r: Role): Value {
    Obj(map["id" := Str(r.id), "code" := Str(r.code), "name" := Str(r.name), "def_path" := Str(r.defPath)])
  }

  /** The list and get render the same column under different keys: a client reading `def_path` from a list entry finds nothing. */
  lemma ListAndGetNameDefPathApart(r: Role)
    ensures "def_path" in GetEntry(r).fields && "def_path" !in ListEntry(r).fields
    ensures ListEntry(r).fields["def_ath"] == GetEntry(r).fields["def_path"] == Str(r.defPath)
    ensures ListEntry(r).fields.Keys - {"def_ath"} == GetEntry(r).fields.Keys - {"def_path"}
  {
  }

  /** The list predicate of a validated query: only the search. */
  function Keep(q: ListQuery): Role -> bool {
    (r: Role) => SearchKeeps(q.search, r.code, r.name)
  }

  /** `table[order]` as a sort key; roles have no is_active column and the query never names it. */
  function SortKey(order: Option<Column>): Option<Role -> Key> {
    if order.None? then None
    else
      match order.value
      case Id => Some((r: Role) => Text(r.id))
      case Code => Some((r: Role) => Text(r.code))
      case Name => Some((r: Role) => Text(r.name))
      case IsActive => None
  }

  /** The list body a validated query asks for. */
  function Page(roles: seq<Role>, q: ListQuery, configured: int): Paged<Value>
    requires PageOrDefault(q.page) >= 1 && PageSizeOrDefault(q.pageSize, configured) >= 1
  {
    Listing(roles, Keep(q), SortKey(q.order), q.dir, ListEntry,
            PageOrDefault(q.page), PageSizeOrDefault(q.pageSize, configured))
  }

  /** GET /: no `filters` are ever pushed, only the search. */
  method List(roles: seq<Role>, raw: RawQuery, configured: int) returns (r: ListResponse<Value>)
    requires configured >= 1
    requires raw.page.Some? ==> raw.page.value >= 1
    requires raw.pageSize.Some? ==> raw.pageSize.value >= 1
    ensures r.ListRejected? <==> RoleModel.ParseQuery(raw).Failure?
    ensures r.ListRejected? ==> r.errors == Group(RoleModel.ParseQuery(raw).issues)
    ensures r.ListReply? ==> r.body == Page(roles, RoleModel.ParseQuery(raw).data, configured)
  {
    var parsed := RoleModel.ParseQuery(raw);
    var bad := Handle(parsed);
    if bad.Some? {
      return ListRejected(bad.value.errors);
    }
    var q := parsed.data;
    var searching: seq<Cond> := [];
    var filters: seq<Cond> := [];
    if Searching(q.search) {
      searching := searching + [CodeLike(q.search.value)];
      searching := searching + [NameLike(q.search.value)];
    }
    var page := PageOrDefault(q.page);
    var size := PageSizeOrDefault(q.pageSize, configured);
    var where := (r: Role) => Where(filters, searching, r.code, r.name, true);
    assert filters == ActiveFilters(None) && searching == SearchConds(q.search);
    WhereSelects(roles, q, where);
    var records := Project(Window(Ordered(Select(roles, Some(where)), SortKey(q.order), q.dir), Offset(page, size), size), ListEntry);
    var total := Count(roles, where);
    r := ListReply(Paged(page, Pages(total, size), total, records));
  }

  /** The search conditions select the rows `Keep` keeps, for the page and for the count. */
  lemma WhereSelects(roles: seq<Role>, q: ListQuery, where: Role -> bool)
    requires forall r: Role :: where(r) == Where(ActiveFilters(None), SearchConds(q.search), r.code, r.name, true)
    ensures Select(roles, Some(where)) == Select(roles, Some(Keep(q)))
    ensures Count(roles, where) == |Select(roles, Some(Keep(q)))|
  {
    forall i | 0 <= i < |roles| ensures where(roles[i]) == Keep(q)(roles[i]) {
      WhereMeans(None, q.search, roles[i].code, roles[i].name, true);
    }
    SelectAgrees(roles, where, Keep(q));
    CountIsSelectLength(roles, where);
  }

  /** Some row holds the code. */
  predicate CodeTaken(roles: seq<Role>, code: string) {
    exists i :: 0 <= i < |roles| && roles[i].code == code
  }

  /** A row other than `id` holds the code. */
  predicate CodeTakenElsewhere(roles: seq<Role>, code: string, id: Uuid) {
    exists i :: 0 <= i < |roles| && roles[i].code == code && roles[i].id != id
  }

  /** The row an accepted create body inserts. */
  function Inserted(b: RoleModel.Body, id: Uuid, now: Timestamp): Role {
    Role(id, b.code, b.name, b.defPath, now, now)
  }

  /**
   * POST /: a taken code is a 409 and changes nothing; otherwise the row is
   * inserted, failing (a 500) only on a repeated id. Unique codes stay unique.
   */
  method Create(db: Db.Database, body: Value, id: Uuid, now: Timestamp) returns (r: Response<Role>)
    requires db.Valid()
    modifies db
    ensures db.Valid() && (old(RoleCodesUnique(db.roles)) ==> RoleCodesUnique(db.roles))
    ensures db.categories == old(db.categories) && db.subs == old(db.subs)
    ensures r.Rejected? <==> RoleModel.ParseBody(body).Failure?
    ensures r.Rejected? ==> r.errors == Group(RoleModel.ParseBody(body).issues)
    ensures RoleModel.ParseBody(body).Success? ==>
      var b := RoleModel.ParseBody(body).data;
      (CodeTaken(old(db.roles), b.code) ==> r == Refused(409, "Role already exists")) &&
      (!CodeTaken(old(db.roles), b.code) ==>
        (r.Internal? <==> id in RoleIds(old(db.roles))) &&
        (!r.Internal? ==> r == Reply(201, "Success", Inserted(b, id, now))))
    ensures r.Reply? ==> db.roles == old(db.roles) + [r.data]
    ensures !r.Reply? ==> db.roles == old(db.roles)
  {
    var parsed := RoleModel.ParseBody(body);
    var bad := Handle(parsed);
    if bad.Some? {
      return Rejected(bad.value.errors);
    }
    var b := parsed.data;
    CountAgreesWithExists(db.roles, KeyIs(RoleCode, b.code));
    FoundByKey(db.roles, RoleCode, b.code);
    if Count(db.roles, KeyIs(RoleCode, b.code)) >= 1 {
      return Refused(409, "Role already exists");
    }
    var row := Inserted(b, id, now);
    ghost var before := db.roles;
    var ok := db.InsertRole(row);
    if !ok {
      return Internal;
    }
    if RoleCodesUnique(before) {
      RoleInsertKeeps(before, row);
    }
    r := Reply(201, "Success", row);
  }

  /** GET /:id: the validator refuses a malformed or unknown id, so a valid one is always found. */
  function Get(roles: seq<Role>, id: string): (r: Response<Value>)
    ensures r.Rejected? <==> !(Strings.IsUuid(id) && id in RoleIds(roles))
    ensures r.Rejected? ==> r.errors == Group(RoleModel.ParseId(id, roles).issues)
    ensures r.Reply? ==> (r.status == 200 && r.message == "Ok" &&
      exists i :: 0 <= i < |roles| && roles[i].id == id && r.data == GetEntry(roles[i]))
    ensures r.Rejected? || r.Reply?
  {
    var parsed := RoleModel.ParseId(id, roles);
    if parsed.Failure? then Rejected(Group(parsed.issues))
    else
      var record := Lookup(roles, RoleKey, id);
      Reply(200, "Ok", GetEntry(record.value))
  }

  /**
   * PUT /:id: the path id (which must name a role) is validated before the
   * body; a code held by another role is a 409, else the role takes the new
   * code, name and def_path and updated_at becomes now. Unique codes stay unique.
   */
  method Update(db: Db.Database, id: string, body: Value, now: Timestamp) returns (r: Response<Role>)
    requires db.Valid()
    modifies db
    ensures db.Valid() && (old(RoleCodesUnique(db.roles)) ==> RoleCodesUnique(db.roles))
    ensures db.categories == old(db.categories) && db.subs == old(db.subs)
    ensures RoleModel.ParseId(id, old(db.roles)).Failure? ==>
      r == Rejected(Group(RoleModel.ParseId(id, old(db.roles)).issues))
    ensures (RoleModel.ParseId(id, old(db.roles)).Success? && RoleModel.ParseBody(body).Failure?) ==>
      r == Rejected(Group(RoleModel.ParseBody(body).issues))
    ensures (RoleModel.ParseId(id, old(db.roles)).Success? && RoleModel.ParseBody(body).Success?) ==>
      Updated(old(db.roles), db.roles, id, RoleModel.ParseBody(body).data, now, r)
    ensures !r.Reply? ==> db.roles == old(db.roles)
  {
    var parsedId := RoleModel.ParseId(id, db.roles);
    var bad := Handle(parsedId);
    if bad.Some? {
      return Rejected(bad.value.errors);
    }
    var parsed := RoleModel.ParseBody(body);
    bad := Handle(parsed);
    if bad.Some? {
      return Rejected(bad.value.errors);
    }
    r := Apply(db, id, parsed.data, now);
  }

  /** What an update of the existing role `id` with an accepted body answers, and the table it leaves. */
  ghost predicate Updated(before: seq<Role>, after: seq<Role>, id: Uuid, b: RoleModel.Body,
                          now: Timestamp, r: Response<Role>) {
    (CodeTakenElsewhere(before, b.code, id) ==> r == Refused(409, "Role already exists")) &&
    (!CodeTakenElsewhere(before, b.code, id) ==>
      r.Reply? && r.status == 200 && r.message == "Success" &&
      after == SetRole(before, id, b.code, b.name, b.defPath, now) &&
      r.data in after && r.data.id == id && r.data.code == b.code && r.data.name == b.name &&
      r.data.defPath == b.defPath && r.data.updatedAt == now)
  }

  /** The handler body of PUT /:id once both validators have accepted. */
  method Apply(db: Db.Database, id: Uuid, b: RoleModel.Body, now: Timestamp) returns (r: Response<Role>)
    requires db.Valid() && id in RoleIds(db.roles)
    modifies db
    ensures db.Valid() && (old(RoleCodesUnique(db.roles)) ==> RoleCodesUnique(db.roles))
    ensures db.categories == old(db.categories) && db.subs == old(db.subs)
    ensures Updated(old(db.roles), db.roles, id, b, now, r)
    ensures !r.Reply? ==> db.roles == old(db.roles)
  {
    ghost var before := db.roles;
    if IsRecordExist(db.roles, Some(RoleClash(b.code, id))) {
      ghost var i :| 0 <= i < |db.roles| && RoleClash(b.code, id)(db.roles[i]);
      return Refused(409, "Role already exists");
    }
    assert forall i :: 0 <= i < |db.roles| ==> !RoleClash(b.code, id)(db.roles[i]);
    if RoleCodesUnique(before) {
      RoleUpdateKeeps(before, id, b.code, b.name, b.defPath, now);
    }
    db.UpdateRole(id, b.code, b.name, b.defPath, now);
    ghost var k :| 0 <= k < |before| && before[k].id == id;
    assert RoleKey(db.roles[k]) == id;
    var updated := Lookup(db.roles, RoleKey, id);
    r := Reply(200, "Success", updated.value);
  }

  /**
   * DELETE /: the array must hold UUIDs of existing roles, with one issue
   * per unknown id; the listed roles are removed and exactly the listed ids
   * returned. Unique codes stay unique.
   */
  method Delete(db: Db.Database, body: Value) returns (r: Response<seq<Uuid>>)
    requires db.Valid()
    modifies db
    ensures db.Valid() && (old(RoleCodesUnique(db.roles)) ==> RoleCodesUnique(db.roles))
    ensures db.categories == old(db.categories) && db.subs == old(db.subs)
    ensures !body.Arr? ==> r == Rejected(Group([IssueAt("invalid_type", [])]))
    ensures body.Arr? && !RoleModel.AllUuids(body) ==> r == Rejected(Group(CheckUuidItems(body.items, Anything, 0)))
    ensures RoleModel.AllUuids(body) ==>
      var ids := Texts(body.items);
      ((exists j :: 0 <= j < |ids| && ids[j] !in RoleIds(old(db.roles))) ==>
        r == Rejected(Group(RoleModel.MissingIssues(ids, RoleIds(old(db.roles)), |ids|)))) &&
      ((forall j :: 0 <= j < |ids| ==> ids[j] in RoleIds(old(db.roles))) ==>
        r.Reply? && r.status == 200 && r.message == "Success" &&
        db.roles == Select(old(db.roles), Some(Unlisted(RoleKey, ids))) &&
        forall x :: x in r.data <==> x in ids)
    ensures r.Rejected? ==> db.roles == old(db.roles)
  {
    var parsed := RoleModel.ParseIds(body, db.roles);
    var bad := Handle(parsed);
    if bad.Some? {
      return Rejected(bad.value.errors);
    }
    var ids := parsed.data;
    ghost var before := db.roles;
    if RoleCodesUnique(before) {
      RoleDeleteKeeps(before, ids);
    }
    var deleted := db.DeleteRoles(ids);
    ReturnsListed(before, ids);
    r := Reply(200, "Success", deleted);
  }

  /** When every listed id names a role, `RETURNING id` gives back exactly the listed ids. */
  lemma ReturnsListed(roles: seq<Role>, ids: seq<Uuid>)
    requires forall j :: 0 <= j < |ids| ==> ids[j] in RoleIds(roles)
    ensures forall x :: x in KeysOf(Select(roles, Some(Listed(RoleKey, ids))), RoleKey) <==> x in ids
  {
    forall x ensures x in KeysOf(Select(roles, Some(Listed(RoleKey, ids))), RoleKey) <==> x in ids {
      ListedKeys(roles, RoleKey, ids, x);
      if x in ids {
        var j :| 0 <= j < |ids| && ids[j] == x;
        assert x in RoleIds(roles);
      }
    }
  }
}
