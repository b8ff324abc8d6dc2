/**
 * The tables: one datatype per row kind, the column limits, and the
 * constraints the database keeps (primary keys, varchar lengths, unique
 * codes, the sub-category foreign key with ON DELETE RESTRICT).
 */
module Schema {
  import opened Wrappers
  import opened DbHelper

  type Uuid = string
  type Timestamp = int

  const CategoryCodeLength: nat := 10
  const CategoryNameLength: nat := 50
  const SubCodeLength: nat := 20
  const SubNameLength: nat := 50

  datatype Category = Category(
    id: Uuid, code: string, name: string, isActive: bool,
    createdAt: Timestamp, updatedAt: Timestamp)

  datatype SubCategory = SubCategory(
    id: Uuid, categoryId: Uuid, code: string, name: string, isActive: bool,
    createdAt: Timestamp, updatedAt: Timestamp)

  datatype Role = Role(
    id: Uuid, code: string, name: string, defPath: string,
    createdAt: Timestamp, updatedAt: Timestamp)

  /**
   * The row the database stores for an insert of code, name and an optional
   * is_active: the supplied id, is_active defaulting to true, both
   * timestamps set to now.
   */
  function NewCategory(id: Uuid, code: string, name: string, isActive: Option<bool>, now: Timestamp): Category {
    Category(id, code, name, isActive.GetOr(true), now, now)
  }

  function NewSubCategory(id: Uuid, categoryId: Uuid, code: string, name: string, isActive: Option<bool>, now: Timestamp): SubCategory {
    SubCategory(id, categoryId, code, name, isActive.GetOr(true), now, now)
  }

  /** An insert that omits is_active stores true. */
  lemma IsActiveDefaultsToTrue(id: Uuid, categoryId: Uuid, code: string, name: string, now: Timestamp)
    ensures NewCategory(id, code, name, None, now).isActive
    ensures NewSubCategory(id, categoryId, code, name, None, now).isActive
  {
  }

  // ----- identities and uniqueness -----

  function CategoryIds(cs: seq<Category>): set<Uuid> {
    set i | 0 <= i < |cs| :: cs[i].id
  }

  function SubIds(subs: seq<SubCategory>): set<Uuid> {
    set i | 0 <= i < |subs| :: subs[i].id
  }

  function RoleIds(roles: seq<Role>): set<Uuid> {
    set i | 0 <= i < |roles| :: roles[i].id
  }

  predicate CategoryFits(c: Category) {
    |c.code| <= CategoryCodeLength && |c.name| <= CategoryNameLength
  }

  // ----- storing a string in a varchar(n) column -----

  /**
   * Section 8.3 of the PostgreSQL documentation: storing a string longer
   * than varchar(n) is an error unless every character past the n-th is a
   * space; those spaces are then cut off.
   */
  predicate Storable(s: string, n: nat) {
    forall i :: n <= i < |s| ==> s[i] == ' '
  }

  /** The value varchar(n) holds for `s`: `s` cut to its first n characters. */
  function Stored(s: string, n: nat): (r: string)
    ensures |r| <= n && |r| <= |s| && r == s[..|r|]
    ensures r == s <==> |s| <= n
  {
    if |s| <= n then s else s[..n]
  }

  function Spaces(k: nat): (r: string)
    ensures |r| == k && forall i :: 0 <= i < k ==> r[i] == ' '
  {
    seq(k, i => ' ')
  }

  /** A storable string is its stored value followed by nothing but spaces. */
  lemma StoredRoundTrip(s: string, n: nat)
    requires Storable(s, n)
    ensures s == Stored(s, n) + Spaces(|s| - |Stored(s, n)|)
  {
    var t := Stored(s, n) + Spaces(|s| - |Stored(s, n)|);
    forall i | 0 <= i < |s| ensures s[i] == t[i] {
      if i >= |Stored(s, n)| {
        assert |s| > n;
      }
    }
  }

  /** A category as `INSERT` or `UPDATE` stores it: both varchar columns cut to their length. */
  function StoreCategory(c: Category): (r: Category)
    ensures CategoryFits(r) && r.id == c.id && r.isActive == c.isActive
    ensures r.createdAt == c.createdAt && r.updatedAt == c.updatedAt
  {
    c.(code := Stored(c.code, CategoryCodeLength), name := Stored(c.name, CategoryNameLength))
  }

  /** The row is accepted by the varchar limits of `categories`. */
  predicate CategoryStorable(c: Category) {
    Storable(c.code, CategoryCodeLength) && Storable(c.name, CategoryNameLength)
  }

  predicate SubFits(s: SubCategory) {
    |s.code| <= SubCodeLength && |s.name| <= SubNameLength
  }

  /** Primary key, varchar limits and the unique code of `categories`. */
  predicate CategoriesValid(cs: seq<Category>) {
    (forall i, j :: 0 <= i < j < |cs| ==> cs[i].id != cs[j].id && cs[i].code != cs[j].code) &&
    (forall i :: 0 <= i < |cs| ==> CategoryFits(cs[i]))
  }

  /**
   * Primary key, varchar limits and the unique code of `category_subs`, and
   * its non-null `category_id` naming an existing category.
   */
  predicate SubsValid(subs: seq<SubCategory>, cs: seq<Category>) {
    (forall i, j :: 0 <= i < j < |subs| ==> subs[i].id != subs[j].id && subs[i].code != subs[j].code) &&
    (forall i :: 0 <= i < |subs| ==> SubFits(subs[i]) && subs[i].categoryId in CategoryIds(cs))
  }

  /** The primary key of `roles`. */
  predicate RolesValid(roles: seq<Role>) {
    forall i, j :: 0 <= i < j < |roles| ==> roles[i].id != roles[j].id
  }

  /** No two roles share a code: kept by the role handlers, not by the database. */
  predicate RoleCodesUnique(roles: seq<Role>) {
    forall i, j :: 0 <= i < j < |roles| ==> roles[i].code != roles[j].code
  }

  /** The unique code makes the pair (category_id, code) unique as well. */
  lemma SubPairsUnique(subs: seq<SubCategory>, cs: seq<Category>)
    requires SubsValid(subs, cs)
    ensures forall i, j :: 0 <= i < j < |subs| ==>
      (subs[i].categoryId, subs[i].code) != (subs[j].categoryId, subs[j].code)
  {
  }

  // ----- what each write statement leaves behind, and when the database accepts it -----

  /** INSERT INTO categories: accepted iff the row is storable and its id and stored code are new. */
  predicate CategoryInsertable(cs: seq<Category>, row: Category) {
    CategoryStorable(row) &&
    forall i :: 0 <= i < |cs| ==> cs[i].id != row.id && cs[i].code != Stored(row.code, CategoryCodeLength)
  }

  predicate SubInsertable(subs: seq<SubCategory>, cs: seq<Category>, row: SubCategory) {
    SubFits(row) && row.categoryId in CategoryIds(cs) &&
    forall i :: 0 <= i < |subs| ==> subs[i].id != row.id && subs[i].code != row.code
  }

  predicate RoleInsertable(roles: seq<Role>, row: Role) {
    forall i :: 0 <= i < |roles| ==> roles[i].id != row.id
  }

  /** UPDATE categories SET code, name, is_active WHERE id = `id`. */
  function SetCategory(cs: seq<Category>, id: Uuid, code: string, name: string, isActive: bool): (r: seq<Category>)
    ensures |r| == |cs|
  {
    seq(|cs|, i requires 0 <= i < |cs| =>
      if cs[i].id == id then cs[i].(code := code, name := name, isActive := isActive) else cs[i])
  }

  /**
   * The update touches only the row with the id, and only its code, name
   * and is_active: its id and both timestamps stay, every other row stays.
   */
  lemma SetCategoryChangesOnly(cs: seq<Category>, id: Uuid, code: string, name: string, isActive: bool, i: nat)
    requires i < |cs|
    ensures var r := SetCategory(cs, id, code, name, isActive);
      r[i].id == cs[i].id && r[i].createdAt == cs[i].createdAt && r[i].updatedAt == cs[i].updatedAt &&
      (cs[i].id == id ==> r[i].code == code && r[i].name == name && r[i].isActive == isActive) &&
      (cs[i].id != id ==> r[i] == cs[i])
  {
  }

  /** The update is accepted iff the rows it changes fit and keep codes unique. */
  predicate CategoryUpdatable(cs: seq<Category>, id: Uuid, code: string, name: string) {
    id !in CategoryIds(cs) ||
    (Storable(code, CategoryCodeLength) && Storable(name, CategoryNameLength) &&
     forall i :: 0 <= i < |cs| && cs[i].id != id ==> cs[i].code != Stored(code, CategoryCodeLength))
  }

  /** UPDATE category_subs SET code, name, is_active, category_id, updated_at WHERE id = `id`. */
  function SetSub(subs: seq<SubCategory>, id: Uuid, categoryId: Uuid, code: string, name: string,
                  isActive: bool, now: Timestamp): (r: seq<SubCategory>)
    ensures |r| == |subs|
  {
    seq(|subs|, i requires 0 <= i < |subs| =>
      if subs[i].id == id
      then subs[i].(categoryId := categoryId, code := code, name := name, isActive := isActive, updatedAt := now)
      else subs[i])
  }

  /**
   * The update touches only the row with the id: its parent, code, name and
   * is_active take the new values and updated_at becomes now; its id and
   * created_at stay, every other row stays.
   */
  lemma SetSubChangesOnly(subs: seq<SubCategory>, id: Uuid, categoryId: Uuid, code: string, name: string,
                          isActive: bool, now: Timestamp, i: nat)
    requires i < |subs|
    ensures var r := SetSub(subs, id, categoryId, code, name, isActive, now);
      r[i].id == subs[i].id && r[i].createdAt == subs[i].createdAt &&
      (subs[i].id == id ==> r[i].categoryId == categoryId && r[i].code == code && r[i].name == name &&
                            r[i].isActive == isActive && r[i].updatedAt == now) &&
      (subs[i].id != id ==> r[i] == subs[i])
  {
  }

  predicate SubUpdatable(subs: seq<SubCategory>, cs: seq<Category>, id: Uuid, categoryId: Uuid, code: string, name: string) {
    id !in SubIds(subs) ||
    (|code| <= SubCodeLength && |name| <= SubNameLength && categoryId in CategoryIds(cs) &&
     forall i :: 0 <= i < |subs| && subs[i].id != id ==> subs[i].code != code)
  }

  /** UPDATE roles SET code, name, def_path, updated_at WHERE id = `id`. */
  function SetRole(roles: seq<Role>, id: Uuid, code: string, name: string, defPath: string, now: Timestamp): (r: seq<Role>)
    ensures |r| == |roles|
  {
    seq(|roles|, i requires 0 <= i < |roles| =>
      if roles[i].id == id
      then roles[i].(code := code, name := name, defPath := defPath, updatedAt := now)
      else roles[i])
  }

  /** Only the row with `id` changes: its code, name, def_path and updated_at. */
  lemma SetRoleChangesOnly(roles: seq<Role>, id: Uuid, code: string, name: string, defPath: string, now: Timestamp, i: nat)
    requires i < |roles|
    ensures var r := SetRole(roles, id, code, name, defPath, now);
      r[i].id == roles[i].id && r[i].createdAt == roles[i].createdAt &&
      (roles[i].id == id ==> r[i].code == code && r[i].name == name && r[i].defPath == defPath && r[i].updatedAt == now) &&
      (roles[i].id != id ==> r[i] == roles[i])
  {
  }

  /** The columns the handlers filter on. */
  function CategoryKey(c: Category): Uuid { c.id }
  function CategoryCode(c: Category): string { c.code }
  function SubKey(s: SubCategory): Uuid { s.id }
  function SubCode(s: SubCategory): string { s.code }
  function RoleKey(r: Role): Uuid { r.id }
  function RoleCode(r: Role): string { r.code }

  /** `and(eq(code, code), ne(id, id))`: another row holding the code. */
  function CategoryClash(code: string, id: Uuid): Category -> bool {
    (c: Category) => c.code == code && c.id != id
  }

  function SubClash(code: string, id: Uuid): SubCategory -> bool {
    (s: SubCategory) => s.code == code && s.id != id
  }

  function RoleClash(code: string, id: Uuid): Role -> bool {
    (r: Role) => r.code == code && r.id != id
  }

  /** DELETE FROM categories WHERE id IN ids: refused while a sub-category references a removed row. */
  predicate CategoryDeletable(cs: seq<Category>, subs: seq<SubCategory>, ids: seq<Uuid>) {
    forall i :: 0 <= i < |subs| ==> !(subs[i].categoryId in ids && subs[i].categoryId in CategoryIds(cs))
  }

  // ----- the constraints survive every statement the database accepts -----

  /** A subsequence chosen by a filter keeps pairwise distinctness. */
  lemma {:induction false} SelectKeepsDistinct<T, K>(s: seq<T>, p: T -> bool, key: T -> K)
    requires forall i, j :: 0 <= i < j < |s| ==> key(s[i]) != key(s[j])
    ensures forall i, j :: 0 <= i < j < |Select(s, Some(p))| ==>
      key(Select(s, Some(p))[i]) != key(Select(s, Some(p))[j])
  {
    if s != [] {
      var t := s[1..];
      SelectKeepsDistinct(t, p, key);
      SelectMembers(t, Some(p));
      var r := Select(s, Some(p));
      var rt := Select(t, Some(p));
      forall i, j | 0 <= i < j < |r| ensures key(r[i]) != key(r[j]) {
        if p(s[0]) && i == 0 {
          assert r[j] == rt[j - 1];
          assert rt[j - 1] in t;
          var k :| 0 <= k < |t| && t[k] == rt[j - 1];
          assert t[k] == s[k + 1];
        } else if p(s[0]) {
          assert r[i] == rt[i - 1] && r[j] == rt[j - 1];
        }
      }
    }
  }

  lemma CategoryInsertKeeps(cs: seq<Category>, subs: seq<SubCategory>, row: Category)
    requires CategoriesValid(cs) && SubsValid(subs, cs) && CategoryInsertable(cs, row)
    ensures CategoriesValid(cs + [StoreCategory(row)]) && SubsValid(subs, cs + [StoreCategory(row)])
  {
    var n := cs + [StoreCategory(row)];
    assert CategoryIds(cs) <= CategoryIds(n) by {
      forall x | x in CategoryIds(cs) ensures x in CategoryIds(n) {
        var i :| 0 <= i < |cs| && cs[i].id == x;
        assert n[i] == cs[i];
      }
    }
  }

  lemma SetCategoryKeepsIds(cs: seq<Category>, id: Uuid, code: string, name: string, isActive: bool)
    ensures CategoryIds(SetCategory(cs, id, code, name, isActive)) == CategoryIds(cs)
  {
    var n := SetCategory(cs, id, code, name, isActive);
    forall x | x in CategoryIds(cs) ensures x in CategoryIds(n) {
      var i :| 0 <= i < |cs| && cs[i].id == x;
      assert n[i].id == x;
    }
    forall x | x in CategoryIds(n) ensures x in CategoryIds(cs) {
      var i :| 0 <= i < |n| && n[i].id == x;
      assert cs[i].id == x;
    }
  }

  lemma CategoryUpdateKeeps(cs: seq<Category>, subs: seq<SubCategory>, id: Uuid, code: string, name: string, isActive: bool)
    requires CategoriesValid(cs) && SubsValid(subs, cs) && CategoryUpdatable(cs, id, code, name)
    ensures CategoriesValid(SetCategory(cs, id, Stored(code, CategoryCodeLength), Stored(name, CategoryNameLength), isActive))
    ensures SubsValid(subs, SetCategory(cs, id, Stored(code, CategoryCodeLength), Stored(name, CategoryNameLength), isActive))
  {
    var c := Stored(code, CategoryCodeLength);
    var m := Stored(name, CategoryNameLength);
    SetCategoryKeepsIds(cs, id, c, m, isActive);
    var n := SetCategory(cs, id, c, m, isActive);
    if id !in CategoryIds(cs) {
      assert n == cs;
    }
  }

  lemma CategoryDeleteKeeps(cs: seq<Category>, subs: seq<SubCategory>, ids: seq<Uuid>)
    requires CategoriesValid(cs) && SubsValid(subs, cs) && CategoryDeletable(cs, subs, ids)
    ensures CategoriesValid(Select(cs, Some(Unlisted(CategoryKey, ids))))
    ensures SubsValid(subs, Select(cs, Some(Unlisted(CategoryKey, ids))))
  {
    var p := Unlisted(CategoryKey, ids);
    var r := Select(cs, Some(p));
    SelectKeepsDistinct(cs, p, (c: Category) => c.id);
    SelectKeepsDistinct(cs, p, (c: Category) => c.code);
    SelectMembers(cs, Some(p));
    forall i | 0 <= i < |r| ensures CategoryFits(r[i]) {
      assert r[i] in cs;
    }
    forall i | 0 <= i < |subs| ensures subs[i].categoryId in CategoryIds(r) {
      ParentSurvives(cs, subs, ids, i);
    }
  }

  /** The parent of a sub-category survives a delete that no sub-category blocks. */
  lemma ParentSurvives(cs: seq<Category>, subs: seq<SubCategory>, ids: seq<Uuid>, i: nat)
    requires SubsValid(subs, cs) && CategoryDeletable(cs, subs, ids) && i < |subs|
    ensures subs[i].categoryId in CategoryIds(Select(cs, Some(Unlisted(CategoryKey, ids))))
  {
    var x := subs[i].categoryId;
    assert x in CategoryIds(cs);
    assert !(x in ids && x in CategoryIds(cs));
    var j :| 0 <= j < |cs| && cs[j].id == x;
    var p := Unlisted(CategoryKey, ids);
    assert p(cs[j]);
    SelectMember(cs, Some(p), cs[j]);
    var r := Select(cs, Some(p));
    var k :| 0 <= k < |r| && r[k] == cs[j];
    assert r[k].id == x;
  }

  lemma SubInsertKeeps(subs: seq<SubCategory>, cs: seq<Category>, row: SubCategory)
    requires SubsValid(subs, cs) && SubInsertable(subs, cs, row)
    ensures SubsValid(subs + [row], cs)
  {
  }

  lemma SetSubKeepsIds(subs: seq<SubCategory>, id: Uuid, categoryId: Uuid, code: string, name: string, isActive: bool, now: Timestamp)
    ensures forall i :: 0 <= i < |subs| ==> SetSub(subs, id, categoryId, code, name, isActive, now)[i].id == subs[i].id
  {
  }

  lemma SubUpdateKeeps(subs: seq<SubCategory>, cs: seq<Category>, id: Uuid, categoryId: Uuid, code: string, name: string, isActive: bool, now: Timestamp)
    requires SubsValid(subs, cs) && SubUpdatable(subs, cs, id, categoryId, code, name)
    ensures SubsValid(SetSub(subs, id, categoryId, code, name, isActive, now), cs)
  {
    var n := SetSub(subs, id, categoryId, code, name, isActive, now);
    if id !in SubIds(subs) {
      forall i | 0 <= i < |subs| ensures n[i] == subs[i] {
        assert subs[i].id != id;
      }
      assert n == subs;
    }
  }

  lemma SubDeleteKeeps(subs: seq<SubCategory>, cs: seq<Category>, ids: seq<Uuid>)
    requires SubsValid(subs, cs)
    ensures SubsValid(Select(subs, Some(Unlisted(SubKey, ids))), cs)
  {
    var p := Unlisted(SubKey, ids);
    var r := Select(subs, Some(p));
    SelectKeepsDistinct(subs, p, (s: SubCategory) => s.id);
    SelectKeepsDistinct(subs, p, (s: SubCategory) => s.code);
    SelectMembers(subs, Some(p));
    forall i | 0 <= i < |r| ensures SubFits(r[i]) && r[i].categoryId in CategoryIds(cs) {
      assert r[i] in subs;
    }
  }

  lemma RoleInsertKeeps(roles: seq<Role>, row: Role)
    requires RolesValid(roles) && RoleCodesUnique(roles) && RoleInsertable(roles, row)
    requires forall i :: 0 <= i < |roles| ==> roles[i].code != row.code
    ensures RolesValid(roles + [row]) && RoleCodesUnique(roles + [row])
  {
  }

  lemma RoleUpdateKeeps(roles: seq<Role>, id: Uuid, code: string, name: string, defPath: string, now: Timestamp)
    requires RolesValid(roles) && RoleCodesUnique(roles)
    requires forall i :: 0 <= i < |roles| && roles[i].id != id ==> roles[i].code != code
    ensures RolesValid(SetRole(roles, id, code, name, defPath, now))
    ensures RoleCodesUnique(SetRole(roles, id, code, name, defPath, now))
  {
  }

  lemma RoleDeleteKeeps(roles: seq<Role>, ids: seq<Uuid>)
    requires RolesValid(roles) && RoleCodesUnique(roles)
    ensures RolesValid(Select(roles, Some(Unlisted(RoleKey, ids))))
    ensures RoleCodesUnique(Select(roles, Some(Unlisted(RoleKey, ids))))
  {
    var p := Unlisted(RoleKey, ids);
    SelectKeepsDistinct(roles, p, (r: Role) => r.id);
    SelectKeepsDistinct(roles, p, (r: Role) => r.code);
  }
}
