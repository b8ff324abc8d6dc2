/**
 * The `/category-subs` handlers. Rows are listed and fetched with a left
 * join on their parent category for its name; the existence of the row,
 * the ids to delete and the parent are all established by the validators,
 * so get has no 404 and update and delete never fail in the database.
 */
module SubCategoryRoutes {
  import opened Wrappers
  import opened Json
  import opened ValidatorHandler
  import opened Ordering
  import opened DbHelper
  import opened Paging
  import opened Query
  import opened Schema
  import opened Responses
  import Db
  import Strings
  import SubCategoryModel

  /** The columns list and get select, `category_name` from the joined parent. */
  datatype Item = Item(id: Uuid, categoryId: Uuid, categoryName: Option<string>, code: string, name: string, isActive: bool)

  /** `leftJoin(cat, eq(category_id, cat.id))`: the parent's name, null without a parent. */
  function CategoryName(cs: seq<Category>, categoryId: Uuid): (r: Option<string>)
    ensures r.Some? <==> categoryId in CategoryIds(cs)
    ensures r.Some? ==> exists i :: 0 <= i < |cs| && cs[i].id == categoryId && cs[i].name == r.value
  {
    var parent := Lookup(cs, CategoryKey, categoryId);
    if parent.Some? then Some(parent.value.name) else None
  }

  function ItemOf(cs: seq<Category>): SubCategory -> Item {
    (s: SubCategory) => Item(s.id, s.categoryId, CategoryName(cs, s.categoryId), s.code, s.name, s.isActive)
  }

  /** The foreign key makes the left join behave as an inner join: every listed row has its parent's name. */
  lemma JoinAlwaysNamesParent(subs: seq<SubCategory>, cs: seq<Category>, i: nat)
    requires SubsValid(subs, cs) && i < |subs|
    ensures ItemOf(cs)(subs[i]).categoryName.Some?
  {
  }

  /** The list predicate of a validated query, on the sub-category's own columns. */
  function Keep(q: ListQuery): SubCategory -> bool {
    (s: SubCategory) => ActiveKeeps(q.isActive, s.isActive) && SearchKeeps(q.search, s.code, s.name)
  }

  /** `table[order]` as a sort key. */
  function SortKey(order: Option<Column>): Option<SubCategory -> Key> {
    if order.None? then None
    else
      match order.value
      case Id => Some((s: SubCategory) => Text(s.id))
      case Code => Some((s: SubCategory) => Text(s.code))
      case Name => Some((s: SubCategory) => Text(s.name))
      case IsActive => Some((s: SubCategory) => Flag(s.isActive))
  }

  /** The list body a validated query asks for. */
  function Page(subs: seq<SubCategory>, cs: seq<Category>, q: ListQuery, configured: int): Paged<Item>
    requires PageOrDefault(q.page) >= 1 && PageSizeOrDefault(q.pageSize, configured) >= 1
  {
    Listing(subs, Keep(q), SortKey(q.order), q.dir, ItemOf(cs),
            PageOrDefault(q.page), PageSizeOrDefault(q.pageSize, configured))
  }

  /** GET /: the page and the count both go through `withJoinAndFilters`. */
  method List(subs: seq<SubCategory>, cs: seq<Category>, raw: RawQuery, configured: int) returns (r: ListResponse<Item>)
    requires configured >= 1
    requires raw.page.Some? ==> raw.page.value >= 1
    requires raw.pageSize.Some? ==> raw.pageSize.value >= 1
    ensures r.ListRejected? <==> SubCategoryModel.ParseQuery(raw).Failure?
    ensures r.ListRejected? ==> r.errors == Group(SubCategoryModel.ParseQuery(raw).issues)
    ensures r.ListReply? ==> r.body == Page(subs, cs, SubCategoryModel.ParseQuery(raw).data, configured)
  {
    var parsed := SubCategoryModel.ParseQuery(raw);
    var bad := Handle(parsed);
    if bad.Some? {
      return ListRejected(bad.value.errors);
    }
    var q := parsed.data;
    var searching: seq<Cond> := [];
    var filters: seq<Cond> := [];
    if Searching(q.search) {
      searching := searching + [CodeLike(q.search.value)];
      searching := searching + [NameLike(q.search.value)];
    }
    if q.isActive.Some? {
      filters := filters + [ActiveIs(q.isActive.value)];
    }
    var page := PageOrDefault(q.page);
    var size := PageSizeOrDefault(q.pageSize, configured);
    var where := (s: SubCategory) => Where(filters, searching, s.code, s.name, s.isActive);
    assert filters == ActiveFilters(q.isActive) && searching == SearchConds(q.search);
    WhereSelects(subs, q, where);
    var records := Project(Window(Ordered(Select(subs, Some(where)), SortKey(q.order), q.dir), Offset(page, size), size), ItemOf(cs));
    var total := Count(subs, where);
    r := ListReply(Paged(page, Pages(total, size), total, records));
  }

  /** The conditions pushed for a query select the rows `Keep` keeps, for the page and for the count. */
  lemma WhereSelects(subs: seq<SubCategory>, q: ListQuery, where: SubCategory -> bool)
    requires forall s: SubCategory :: where(s) == Where(ActiveFilters(q.isActive), SearchConds(q.search), s.code, s.name, s.isActive)
    ensures Select(subs, Some(where)) == Select(subs, Some(Keep(q)))
    ensures Count(subs, where) == |Select(subs, Some(Keep(q)))|
  {
    forall i | 0 <= i < |subs| ensures where(subs[i]) == Keep(q)(subs[i]) {
      WhereMeans(q.isActive, q.search, subs[i].code, subs[i].name, subs[i].isActive);
    }
    SelectAgrees(subs, where, Keep(q));
    CountIsSelectLength(subs, where);
  }

  /** Some row holds the code. */
  predicate CodeTaken(subs: seq<SubCategory>, code: string) {
    exists i :: 0 <= i < |subs| && subs[i].code == code
  }

  /** A row other than `id` holds the code. */
  predicate CodeTakenElsewhere(subs: seq<SubCategory>, code: string, id: Uuid) {
    exists i :: 0 <= i < |subs| && subs[i].code == code && subs[i].id != id
  }

  /** The row an accepted create body inserts. */
  function Inserted(b: SubCategoryModel.Body, id: Uuid, now: Timestamp): SubCategory {
    NewSubCategory(id, b.category, b.code, b.name, Some(b.isActive), now)
  }

  /**
   * POST /: a taken code is a 409 and changes nothing; otherwise the row is
   * inserted under the validated parent. The validator already bounds code
   * and name and checks the parent, so the insert fails (a 500) only when
   * the generated id is already used.
   */
  method Create(db: Db.Database, body: Value, id: Uuid, now: Timestamp) returns (r: Response<SubCategory>)
    requires db.Valid()
    modifies db
    ensures db.Valid() && db.categories == old(db.categories) && db.roles == old(db.roles)
    ensures r.Rejected? <==> SubCategoryModel.ParseBody(body, old(db.categories)).Failure?
    ensures r.Rejected? ==> r.errors == Group(SubCategoryModel.ParseBody(body, old(db.categories)).issues)
    ensures SubCategoryModel.ParseBody(body, old(db.categories)).Success? ==>
      var b := SubCategoryModel.ParseBody(body, old(db.categories)).data;
      (CodeTaken(old(db.subs), b.code) ==> r == Refused(409, "Sub category code already exists")) &&
      (!CodeTaken(old(db.subs), b.code) ==>
        (r.Internal? <==> id in SubIds(old(db.subs))) &&
        (!r.Internal? ==> r == Reply(201, "Success", Inserted(b, id, now))))
    ensures r.Reply? ==> db.subs == old(db.subs) + [r.data]
    ensures !r.Reply? ==> db.subs == old(db.subs)
  {
    var parsed := SubCategoryModel.ParseBody(body, db.categories);
    var bad := Handle(parsed);
    if bad.Some? {
      return Rejected(bad.value.errors);
    }
    var b := parsed.data;
    FoundByKey(db.subs, SubCode, b.code);
    if IsRecordExist(db.subs, Some(KeyIs(SubCode, b.code))) {
      return Refused(409, "Sub category code already exists");
    }
    var row := Inserted(b, id, now);
    AcceptedInsertable(body, db.categories, db.subs, id, now);
    var ok := db.InsertSub(row);
    if !ok {
      return Internal;
    }
    r := Reply(201, "Success", row);
  }

  /** A validated body whose code is free is refused by the insert only for a used id. */
  lemma AcceptedInsertable(v: Value, cs: seq<Category>, subs: seq<SubCategory>, id: Uuid, now: Timestamp)
    requires SubCategoryModel.ParseBody(v, cs).Success?
    requires !CodeTaken(subs, SubCategoryModel.ParseBody(v, cs).data.code)
    ensures SubInsertable(subs, cs, Inserted(SubCategoryModel.ParseBody(v, cs).data, id, now))
      <==> id !in SubIds(subs)
  {
    var b := SubCategoryModel.ParseBody(v, cs).data;
    assert SubCategoryModel.BodyOk(v, cs);
    assert SubFits(Inserted(b, id, now)) && b.category in CategoryIds(cs);
  }

  /** GET /:id: the validator refuses a malformed or unknown id, so a valid one is always found. */
  function Get(subs: seq<SubCategory>, cs: seq<Category>, id: string): (r: Response<Item>)
    ensures r.Rejected? <==> !(Strings.IsUuid(id) && id in SubIds(subs))
    ensures r.Rejected? ==> r.errors == Group(SubCategoryModel.ParseId(id, subs).issues)
    ensures r.Reply? ==> (r.status == 200 && r.message == "Ok" &&
      exists i :: 0 <= i < |subs| && subs[i].id == id && r.data == ItemOf(cs)(subs[i]))
    ensures r.Rejected? || r.Reply?
  {
    var parsed := SubCategoryModel.ParseId(id, subs);
    if parsed.Failure? then Rejected(Group(parsed.issues))
    else
      var record := Lookup(subs, SubKey, id);
      Reply(200, "Ok", ItemOf(cs)(record.value))
  }

  /**
   * PUT /:id: the path id (which must name a row) is validated before the
   * body; a code held by another row is a 409, else the row takes the new
   * parent, code, name and is_active and updated_at becomes now. The update
   * always succeeds.
   */
  method Update(db: Db.Database, id: string, body: Value, now: Timestamp) returns (r: Response<SubCategory>)
    requires db.Valid()
    modifies db
    ensures db.Valid() && db.categories == old(db.categories) && db.roles == old(db.roles)
    ensures SubCategoryModel.ParseId(id, old(db.subs)).Failure? ==>
      r == Rejected(Group(SubCategoryModel.ParseId(id, old(db.subs)).issues))
    ensures (SubCategoryModel.ParseId(id, old(db.subs)).Success? &&
             SubCategoryModel.ParseBody(body, old(db.categories)).Failure?) ==>
      r == Rejected(Group(SubCategoryModel.ParseBody(body, old(db.categories)).issues))
    ensures (SubCategoryModel.ParseId(id, old(db.subs)).Success? &&
             SubCategoryModel.ParseBody(body, old(db.categories)).Success?) ==>
      Updated(old(db.subs), db.subs, id, SubCategoryModel.ParseBody(body, old(db.categories)).data, now, r)
    ensures !r.Reply? ==> db.subs == old(db.subs)
  {
    var parsedId := SubCategoryModel.ParseId(id, db.subs);
    var bad := Handle(parsedId);
    if bad.Some? {
      return Rejected(bad.value.errors);
    }
    var parsed := SubCategoryModel.ParseBody(body, db.categories);
    bad := Handle(parsed);
    if bad.Some? {
      return Rejected(bad.value.errors);
    }
    r := Apply(db, id, parsed.data, now);
  }

  /** What an update of the existing row `id` with an accepted body answers, and the table it leaves. */
  ghost predicate Updated(before: seq<SubCategory>, after: seq<SubCategory>, id: Uuid, b: SubCategoryModel.Body,
                          now: Timestamp, r: Response<SubCategory>) {
    (CodeTakenElsewhere(before, b.code, id) ==> r == Refused(409, "Sub Category code already exists")) &&
    (!CodeTakenElsewhere(before, b.code, id) ==>
      r.Reply? && r.status == 200 && r.message == "Success" &&
      after == SetSub(before, id, b.category, b.code, b.name, b.isActive, now) &&
      r.data in after && r.data.id == id && r.data.categoryId == b.category &&
      r.data.code == b.code && r.data.name == b.name && r.data.isActive == b.isActive && r.data.updatedAt == now)
  }

  /** The handler body of PUT /:id once both validators have accepted. */
  method Apply(db: Db.Database, id: Uuid, b: SubCategoryModel.Body, now: Timestamp) returns (r: Response<SubCategory>)
    requires db.Valid() && id in SubIds(db.subs) && b.category in CategoryIds(db.categories)
    requires |b.code| <= SubCategoryModel.CodeMax && |b.name| <= SubCategoryModel.NameMax
    modifies db
    ensures db.Valid() && db.categories == old(db.categories) && db.roles == old(db.roles)
    ensures Updated(old(db.subs), db.subs, id, b, now, r)
    ensures !r.Reply? ==> db.subs == old(db.subs)
  {
    ghost var before := db.subs;
    if IsRecordExist(db.subs, Some(SubClash(b.code, id))) {
      ghost var i :| 0 <= i < |db.subs| && SubClash(b.code, id)(db.subs[i]);
      return Refused(409, "Sub Category code already exists");
    }
    NoClashUpdatable(db.subs, db.categories, id, b);
    var ok := db.UpdateSub(id, b.category, b.code, b.name, b.isActive, now);
    assert ok;
    ghost var k :| 0 <= k < |before| && before[k].id == id;
    SetSubChangesOnly(before, id, b.category, b.code, b.name, b.isActive, now, k);
    assert SubKey(db.subs[k]) == id;
    var updated := Lookup(db.subs, SubKey, id);
    UpdatedRow(before, id, b, now, updated.value);
    r := Reply(200, "Success", updated.value);
  }

  /** With no other row holding the code, the database accepts the update of a validated body. */
  lemma NoClashUpdatable(subs: seq<SubCategory>, cs: seq<Category>, id: Uuid, b: SubCategoryModel.Body)
    requires b.category in CategoryIds(cs)
    requires |b.code| <= SubCategoryModel.CodeMax && |b.name| <= SubCategoryModel.NameMax
    requires !IsRecordExist(subs, Some(SubClash(b.code, id)))
    ensures SubUpdatable(subs, cs, id, b.category, b.code, b.name)
    ensures !CodeTakenElsewhere(subs, b.code, id)
  {
    assert forall i :: 0 <= i < |subs| ==> !SubClash(b.code, id)(subs[i]);
  }

  /** The row holding `id` after the update carries the accepted body and the new updated_at. */
  lemma UpdatedRow(before: seq<SubCategory>, id: Uuid, b: SubCategoryModel.Body, now: Timestamp, row: SubCategory)
    requires row in SetSub(before, id, b.category, b.code, b.name, b.isActive, now) && row.id == id
    ensures row.categoryId == b.category && row.code == b.code && row.name == b.name
    ensures row.isActive == b.isActive && row.updatedAt == now
  {
    var after := SetSub(before, id, b.category, b.code, b.name, b.isActive, now);
    var j :| 0 <= j < |after| && after[j] == row;
    SetSubChangesOnly(before, id, b.category, b.code, b.name, b.isActive, now, j);
  }

  /**
   * DELETE /: the validator accepts only arrays of ids of existing rows;
   * those rows are removed (nothing references a sub-category) and exactly
   * the listed ids are returned.
   */
  method Delete(db: Db.Database, body: Value) returns (r: Response<seq<Uuid>>)
    requires db.Valid()
    modifies db
    ensures db.Valid() && db.categories == old(db.categories) && db.roles == old(db.roles)
    ensures r.Rejected? <==> SubCategoryModel.ParseIds(body, old(db.subs)).Failure?
    ensures r.Rejected? ==> r.errors == Group(SubCategoryModel.ParseIds(body, old(db.subs)).issues)
    ensures !r.Rejected? ==>
      var ids := SubCategoryModel.ParseIds(body, old(db.subs)).data;
      r.Reply? && r.status == 200 && r.message == "Success" &&
      db.subs == Select(old(db.subs), Some(Unlisted(SubKey, ids))) &&
      forall x :: x in r.data <==> x in ids
    ensures r.Rejected? ==> db.subs == old(db.subs)
  {
    var parsed := SubCategoryModel.ParseIds(body, db.subs);
    var bad := Handle(parsed);
    if bad.Some? {
      return Rejected(bad.value.errors);
    }
    var ids := parsed.data;
    ghost var before := db.subs;
    var deleted := db.DeleteSubs(ids);
    r := Reply(200, "Success", deleted);
    forall x ensures x in deleted <==> x in ids {
      ListedKeys(before, SubKey, ids, x);
      if x in ids {
        var j :| 0 <= j < |ids| && ids[j] == x;
        assert x in SubIds(before);
      }
    }
  }
}
