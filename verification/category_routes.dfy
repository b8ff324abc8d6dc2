/**
 * The `/categories` handlers: list, create, get, update and delete. Each
 * runs its validators first (path before body), answers the validator's
 * refusal with the grouped errors, then consults and changes the table.
 */
module CategoryRoutes {
  import opened Wrappers
  import opened Json
  import opened ValidatorHandler
  import opened Ordering
  import opened DbHelper
  import opened Paging
  import opened Query
  import opened Schema
  import opened Responses
  import Db
  import Strings
  import CategoryModel

  /** The columns list and get select. */
  datatype Item = Item(id: Uuid, code: string, name: string, isActive: bool)

  function ItemOf(c: Category): Item {
    Item(c.id, c.code, c.name, c.isActive)
  }

  /** The list predicate of a validated query: the is_active filter and the search on code or name. */
  function Keep(q: ListQuery): Category -> bool {
    (c: Category) => ActiveKeeps(q.isActive, c.isActive) && SearchKeeps(q.search, c.code, c.name)
  }

  /** `col[order]` as a sort key. */
  function SortKey(order: Option<Column>): Option<Category -> Key> {
    if order.None? then None
    else
      match order.value
      case Id => Some((c: Category) => Text(c.id))
      case Code => Some((c: Category) => Text(c.code))
      case Name => Some((c: Category) => Text(c.name))
      case IsActive => Some((c: Category) => Flag(c.isActive))
  }

  /** The list body a validated query asks for. */
  function Page(cs: seq<Category>, q: ListQuery, configured: int): Paged<Item>
    requires PageOrDefault(q.page) >= 1 && PageSizeOrDefault(q.pageSize, configured) >= 1
  {
    Listing(cs, Keep(q), SortKey(q.order), q.dir, ItemOf,
            PageOrDefault(q.page), PageSizeOrDefault(q.pageSize, configured))
  }

  /**
   * GET /: the pushed `filters` and `searching` conditions select the same
   * rows for the page and for the total.
   */
  method List(cs: seq<Category>, raw: RawQuery, configured: int) returns (r: ListResponse<Item>)
    requires configured >= 1
    requires raw.page.Some? ==> raw.page.value >= 1
    requires raw.pageSize.Some? ==> raw.pageSize.value >= 1
    ensures r.ListRejected? <==> CategoryModel.ParseQuery(raw).Failure?
    ensures r.ListRejected? ==> r.errors == Group(CategoryModel.ParseQuery(raw).issues)
    ensures r.ListReply? ==> r.body == Page(cs, CategoryModel.ParseQuery(raw).data, configured)
  {
    var parsed := CategoryModel.ParseQuery(raw);
    var bad := Handle(parsed);
    if bad.Some? {
      return ListRejected(bad.value.errors);
    }
    var q := parsed.data;
    var searching: seq<Cond> := [];
    var filters: seq<Cond> := [];
    if Searching(q.search) {
      searching := searching + [CodeLike(q.search.value)];
      searching := searching + [NameLike(q.search.value)];
    }
    if q.isActive.Some? {
      filters := filters + [ActiveIs(q.isActive.value)];
    }
    var page := PageOrDefault(q.page);
    var size := PageSizeOrDefault(q.pageSize, configured);
    var where := (c: Category) => Where(filters, searching, c.code, c.name, c.isActive);
    assert filters == ActiveFilters(q.isActive) && searching == SearchConds(q.search);
    WhereSelects(cs, q, where);
    var records := Project(Window(Ordered(Select(cs, Some(where)), SortKey(q.order), q.dir), Offset(page, size), size), ItemOf);
    var total := Count(cs, where);
    r := ListReply(Paged(page, Pages(total, size), total, records));
  }

  /** The conditions pushed for a query select the rows `Keep` keeps, for the page and for the count. */
  lemma WhereSelects(cs: seq<Category>, q: ListQuery, where: Category -> bool)
    requires forall c: Category :: where(c) == Where(ActiveFilters(q.isActive), SearchConds(q.search), c.code, c.name, c.isActive)
    ensures Select(cs, Some(where)) == Select(cs, Some(Keep(q)))
    ensures Count(cs, where) == |Select(cs, Some(Keep(q)))|
  {
    forall i | 0 <= i < |cs| ensures where(cs[i]) == Keep(q)(cs[i]) {
      WhereMeans(q.isActive, q.search, cs[i].code, cs[i].name, cs[i].isActive);
    }
    SelectAgrees(cs, where, Keep(q));
    CountIsSelectLength(cs, where);
  }

  /** Some row holds the code. */
  predicate CodeTaken(cs: seq<Category>, code: string) {
    exists i :: 0 <= i < |cs| && cs[i].code == code
  }

  /** A row other than `id` holds the code. */
  predicate CodeTakenElsewhere(cs: seq<Category>, code: string, id: Uuid) {
    exists i :: 0 <= i < |cs| && cs[i].code == code && cs[i].id != id
  }

  /** The row an accepted create body asks to insert. */
  function Requested(b: CategoryModel.Body, id: Uuid, now: Timestamp): Category {
    NewCategory(id, b.code, b.name, Some(b.isActive), now)
  }

  /** The row the database stores, and `RETURNING *` gives back, for an accepted create body. */
  function Inserted(b: CategoryModel.Body, id: Uuid, now: Timestamp): Category {
    StoreCategory(Requested(b, id, now))
  }

  /**
   * The stored row carries the body: its id, the name, is_active, both
   * timestamps set to now, and the code cut to the column (unchanged when
   * it fits).
   */
  lemma InsertedCarriesBody(b: CategoryModel.Body, id: Uuid, now: Timestamp)
    requires |b.name| <= CategoryModel.NameMax
    ensures Inserted(b, id, now).id == id && Inserted(b, id, now).name == b.name
    ensures Inserted(b, id, now).isActive == b.isActive
    ensures Inserted(b, id, now).createdAt == now && Inserted(b, id, now).updatedAt == now
    ensures Inserted(b, id, now).code == Stored(b.code, CategoryCodeLength)
    ensures |b.code| <= CategoryCodeLength ==> Inserted(b, id, now).code == b.code
  {
  }

  /**
   * POST /: a taken code is a 409 and changes nothing; otherwise the row is
   * inserted, and the insert fails (a 500) exactly when the code cannot be
   * stored in the column (characters other than spaces past the tenth), the
   * code as stored is already held, or the generated id is already used.
   */
  method Create(db: Db.Database, body: Value, id: Uuid, now: Timestamp) returns (r: Response<Category>)
    requires db.Valid()
    modifies db
    ensures db.Valid() && db.subs == old(db.subs) && db.roles == old(db.roles)
    ensures r.Rejected? <==> CategoryModel.ParseBody(body).Failure?
    ensures r.Rejected? ==> r.errors == Group(CategoryModel.ParseBody(body).issues)
    ensures CategoryModel.ParseBody(body).Success? ==>
      var b := CategoryModel.ParseBody(body).data;
      (CodeTaken(old(db.categories), b.code) ==> r == Refused(409, "Category code already exists")) &&
      (!CodeTaken(old(db.categories), b.code) ==>
        (r.Internal? <==> !Storable(b.code, CategoryCodeLength) || id in CategoryIds(old(db.categories)) ||
                          CodeTaken(old(db.categories), Stored(b.code, CategoryCodeLength))) &&
        (!r.Internal? ==> r == Reply(201, "Success", Inserted(b, id, now))))
    ensures r.Reply? ==> db.categories == old(db.categories) + [r.data]
    ensures !r.Reply? ==> db.categories == old(db.categories)
  {
    var parsed := CategoryModel.ParseBody(body);
    var bad := Handle(parsed);
    if bad.Some? {
      return Rejected(bad.value.errors);
    }
    var b := parsed.data;
    CountAgreesWithExists(db.categories, KeyIs(CategoryCode, b.code));
    FoundByKey(db.categories, CategoryCode, b.code);
    if Count(db.categories, KeyIs(CategoryCode, b.code)) >= 1 {
      return Refused(409, "Category code already exists");
    }
    var row := Requested(b, id, now);
    AcceptedInsertable(db.categories, b, id, now);
    var ok, inserted := db.InsertCategory(row);
    if !ok {
      return Internal;
    }
    r := Reply(201, "Success", inserted);
  }

  /** For a validated body the insert is refused only for an unstorable code, a used id or a held stored code. */
  lemma AcceptedInsertable(cs: seq<Category>, b: CategoryModel.Body, id: Uuid, now: Timestamp)
    requires |b.name| <= CategoryModel.NameMax
    ensures CategoryInsertable(cs, Requested(b, id, now))
      <==> Storable(b.code, CategoryCodeLength) && id !in CategoryIds(cs) &&
           !CodeTaken(cs, Stored(b.code, CategoryCodeLength))
  {
    if id in CategoryIds(cs) {
      var i :| 0 <= i < |cs| && cs[i].id == id;
    }
  }

  /** GET /:id: a malformed id is refused by the validator, an unknown one is a 404. */
  function Get(cs: seq<Category>, id: string): (r: Response<Item>)
    ensures r.Rejected? <==> !Strings.IsUuid(id)
    ensures r.Rejected? ==> r.errors == Group(CategoryModel.ParseId(id).issues)
    ensures r.Refused? <==> Strings.IsUuid(id) && id !in CategoryIds(cs)
    ensures r.Refused? ==> r == Refused(404, "Not found")
    ensures r.Reply? ==> (r.status == 200 && r.message == "Ok" &&
      exists i :: 0 <= i < |cs| && cs[i].id == id && r.data == ItemOf(cs[i]))
    ensures r.Internal? ==> false
  {
    var parsed := CategoryModel.ParseId(id);
    if parsed.Failure? then Rejected(Group(parsed.issues))
    else if !IsRecordExist(cs, Some(KeyIs(CategoryKey, id))) then
      FoundByKey(cs, CategoryKey, id);
      Refused(404, "Not found")
    else
      FoundByKey(cs, CategoryKey, id);
      var record := Lookup(cs, CategoryKey, id);
      Reply(200, "Ok", ItemOf(record.value))
  }

  /**
   * PUT /:id: the path id is validated before the body; an unknown id is a
   * 404 before a code held by another row is a 409. The update then sets
   * code, name and is_active and fails (a 500) exactly when the code cannot
   * be stored in the column or another row already holds it as stored.
   */
  method Update(db: Db.Database, id: string, body: Value) returns (r: Response<Category>)
    requires db.Valid()
    modifies db
    ensures db.Valid() && db.subs == old(db.subs) && db.roles == old(db.roles)
    ensures CategoryModel.ParseId(id).Failure? ==> r == Rejected(Group(CategoryModel.ParseId(id).issues))
    ensures CategoryModel.ParseId(id).Success? && CategoryModel.ParseBody(body).Failure? ==>
      r == Rejected(Group(CategoryModel.ParseBody(body).issues))
    ensures CategoryModel.ParseId(id).Success? && CategoryModel.ParseBody(body).Success? ==>
      Updated(old(db.categories), db.categories, id, CategoryModel.ParseBody(body).data, r)
    ensures !r.Reply? ==> db.categories == old(db.categories)
  {
    var parsedId := CategoryModel.ParseId(id);
    var bad := Handle(parsedId);
    if bad.Some? {
      return Rejected(bad.value.errors);
    }
    var parsed := CategoryModel.ParseBody(body);
    bad := Handle(parsed);
    if bad.Some? {
      return Rejected(bad.value.errors);
    }
    r := Apply(db, id, parsed.data);
  }

  /**
   * What an update of the row `id` with an accepted body answers, and the
   * table it leaves: 404, then 409, then a 500 exactly when the code cannot
   * be stored or clashes once stored, else the updated row.
   */
  ghost predicate Updated(before: seq<Category>, after: seq<Category>, id: Uuid, b: CategoryModel.Body, r: Response<Category>) {
    var code := Stored(b.code, CategoryCodeLength);
    (id !in CategoryIds(before) ==> r == Refused(404, "Not found")) &&
    (id in CategoryIds(before) && CodeTakenElsewhere(before, b.code, id) ==>
      r == Refused(409, "Category code already exists")) &&
    (id in CategoryIds(before) && !CodeTakenElsewhere(before, b.code, id) ==>
      (r.Internal? <==> !Storable(b.code, CategoryCodeLength) || CodeTakenElsewhere(before, code, id)) &&
      (!r.Internal? ==> (r.Reply? && r.status == 200 && r.message == "Success" &&
        after == SetCategory(before, id, code, b.name, b.isActive) &&
        r.data in after && r.data.id == id &&
        r.data.code == code && r.data.name == b.name && r.data.isActive == b.isActive)))
  }

  /** The handler body of PUT /:id once both validators have accepted. */
  method Apply(db: Db.Database, id: Uuid, b: CategoryModel.Body) returns (r: Response<Category>)
    requires db.Valid() && |b.name| <= CategoryModel.NameMax
    modifies db
    ensures db.Valid() && db.subs == old(db.subs) && db.roles == old(db.roles)
    ensures Updated(old(db.categories), db.categories, id, b, r)
    ensures !r.Reply? ==> db.categories == old(db.categories)
    ensures !r.Rejected?
  {
    ghost var before := db.categories;
    FoundByKey(db.categories, CategoryKey, id);
    if !IsRecordExist(db.categories, Some(KeyIs(CategoryKey, id))) {
      return Refused(404, "Not found");
    }
    if IsRecordExist(db.categories, Some(CategoryClash(b.code, id))) {
      ghost var i :| 0 <= i < |db.categories| && CategoryClash(b.code, id)(db.categories[i]);
      return Refused(409, "Category code already exists");
    }
    UpdatableMeans(before, id, b);
    assert Stored(b.name, CategoryNameLength) == b.name;
    var ok := db.UpdateCategory(id, b.code, b.name, b.isActive);
    if !ok {
      return Internal;
    }
    ghost var code := Stored(b.code, CategoryCodeLength);
    ghost var k :| 0 <= k < |before| && before[k].id == id;
    SetCategoryChangesOnly(before, id, code, b.name, b.isActive, k);
    assert CategoryKey(db.categories[k]) == id;
    var updated := Lookup(db.categories, CategoryKey, id);
    UpdatedRow(before, id, code, b, updated.value);
    r := Reply(200, "Success", updated.value);
  }

  /** With the id present and no clash on the code as sent, the update is refused only as `Updated` says. */
  lemma UpdatableMeans(cs: seq<Category>, id: Uuid, b: CategoryModel.Body)
    requires id in CategoryIds(cs) && |b.name| <= CategoryModel.NameMax
    ensures CategoryUpdatable(cs, id, b.code, b.name)
      <==> Storable(b.code, CategoryCodeLength) && !CodeTakenElsewhere(cs, Stored(b.code, CategoryCodeLength), id)
  {
  }

  /** The row holding `id` after the update carries the accepted body, its code as stored. */
  lemma UpdatedRow(before: seq<Category>, id: Uuid, code: string, b: CategoryModel.Body, row: Category)
    requires row in SetCategory(before, id, code, b.name, b.isActive) && row.id == id
    ensures row.code == code && row.name == b.name && row.isActive == b.isActive
  {
    var after := SetCategory(before, id, code, b.name, b.isActive);
    var j :| 0 <= j < |after| && after[j] == row;
    SetCategoryChangesOnly(before, id, code, b.name, b.isActive, j);
  }

  /**
   * DELETE /: the body must be an array of UUIDs; the listed rows that exist
   * are removed and their ids returned. A row still referenced by a
   * sub-category makes the whole delete fail (a 500) and changes nothing.
   */
  method Delete(db: Db.Database, body: Value) returns (r: Response<seq<Uuid>>)
    requires db.Valid()
    modifies db
    ensures db.Valid() && db.subs == old(db.subs) && db.roles == old(db.roles)
    ensures r.Rejected? <==> CategoryModel.ParseIds(body).Failure?
    ensures r.Rejected? ==> r.errors == Group(CategoryModel.ParseIds(body).issues)
    ensures CategoryModel.ParseIds(body).Success? ==>
      var ids := CategoryModel.ParseIds(body).data;
      (r.Internal? <==> !CategoryDeletable(old(db.categories), old(db.subs), ids)) &&
      (!r.Internal? ==>
        r.Reply? && r.status == 200 && r.message == "Success" &&
        db.categories == Select(old(db.categories), Some(Unlisted(CategoryKey, ids))) &&
        forall x :: x in r.data <==> x in ids && x in CategoryIds(old(db.categories)))
    ensures !r.Reply? ==> db.categories == old(db.categories)
  {
    var parsed := CategoryModel.ParseIds(body);
    var bad := Handle(parsed);
    if bad.Some? {
      return Rejected(bad.value.errors);
    }
    var ids := parsed.data;
    ghost var before := db.categories;
    var ok, deleted := db.DeleteCategories(ids);
    if !ok {
      return Internal;
    }
    r := Reply(200, "Success", deleted);
    forall x ensures x in deleted <==> x in ids && x in CategoryIds(before) {
      ListedKeys(before, CategoryKey, ids, x);
    }
  }
}
