/**
 * The database the handlers talk to: the three tables, updated in place by
 * the INSERT, UPDATE and DELETE statements. A statement that would break a
 * constraint is refused and changes nothing; the handlers turn the thrown
 * error into a 500.
 */
module Db {
  import opened Wrappers
  import opened DbHelper
  import opened Schema

  class Database {
    var categories: seq<Category>
    var subs: seq<SubCategory>
    var roles: seq<Role>

    /** The constraints the database itself keeps. */
    ghost predicate Valid()
      reads this
    {
      CategoriesValid(categories) && SubsValid(subs, categories) && RolesValid(roles)
    }

    constructor ()
      ensures Valid() && categories == [] && subs == [] && roles == []
    {
      categories := [];
      subs := [];
      roles := [];
    }

    /** `INSERT INTO categories ... RETURNING *`: `inserted` is the row as stored. */
    method InsertCategory(row: Category) returns (ok: bool, inserted: Category)
      requires Valid()
      modifies this
      ensures Valid()
      ensures ok == CategoryInsertable(old(categories), row)
      ensures inserted == StoreCategory(row)
      ensures categories == if ok then old(categories) + [inserted] else old(categories)
      ensures subs == old(subs) && roles == old(roles)
    {
      ok := CategoryInsertable(categories, row);
      inserted := StoreCategory(row);
      if ok {
        CategoryInsertKeeps(categories, subs, row);
        categories := categories + [inserted];
      }
    }

    /** `UPDATE categories SET code, name, is_active WHERE id = id`. */
    method UpdateCategory(id: Uuid, code: string, name: string, isActive: bool) returns (ok: bool)
      requires Valid()
      modifies this
      ensures Valid()
      ensures ok == CategoryUpdatable(old(categories), id, code, name)
      ensures categories == if ok
        then SetCategory(old(categories), id, Stored(code, CategoryCodeLength), Stored(name, CategoryNameLength), isActive)
        else old(categories)
      ensures subs == old(subs) && roles == old(roles)
    {
      ok := CategoryUpdatable(categories, id, code, name);
      if ok {
        CategoryUpdateKeeps(categories, subs, id, code, name, isActive);
        categories := SetCategory(categories, id, Stored(code, CategoryCodeLength), Stored(name, CategoryNameLength), isActive);
      }
    }

    /**
     * `DELETE FROM categories WHERE id IN ids RETURNING id`: refused while a
     * sub-category references one of the rows (ON DELETE RESTRICT).
     */
    method DeleteCategories(ids: seq<Uuid>) returns (ok: bool, deleted: seq<Uuid>)
      requires Valid()
      modifies this
      ensures Valid()
      ensures ok == CategoryDeletable(old(categories), old(subs), ids)
      ensures ok ==> categories == Select(old(categories), Some(Unlisted(CategoryKey, ids)))
      ensures ok ==> deleted == KeysOf(Select(old(categories), Some(Listed(CategoryKey, ids))), CategoryKey)
      ensures !ok ==> categories == old(categories) && deleted == []
      ensures subs == old(subs) && roles == old(roles)
    {
      ok := CategoryDeletable(categories, subs, ids);
      deleted := [];
      if ok {
        CategoryDeleteKeeps(categories, subs, ids);
        deleted := KeysOf(Select(categories, Some(Listed(CategoryKey, ids))), CategoryKey);
        categories := Select(categories, Some(Unlisted(CategoryKey, ids)));
      }
    }

    /** `INSERT INTO category_subs ... RETURNING *`. */
    method InsertSub(row: SubCategory) returns (ok: bool)
      requires Valid()
      modifies this
      ensures Valid()
      ensures ok == SubInsertable(old(subs), old(categories), row)
      ensures subs == if ok then old(subs) + [row] else old(subs)
      ensures categories == old(categories) && roles == old(roles)
    {
      ok := SubInsertable(subs, categories, row);
      if ok {
        SubInsertKeeps(subs, categories, row);
        subs := subs + [row];
      }
    }

    /** `UPDATE category_subs SET code, name, is_active, category_id, updated_at WHERE id = id`. */
    method UpdateSub(id: Uuid, categoryId: Uuid, code: string, name: string, isActive: bool, now: Timestamp)
      returns (ok: bool)
      requires Valid()
      modifies this
      ensures Valid()
      ensures ok == SubUpdatable(old(subs), old(categories), id, categoryId, code, name)
      ensures subs == if ok then SetSub(old(subs), id, categoryId, code, name, isActive, now) else old(subs)
      ensures categories == old(categories) && roles == old(roles)
    {
      ok := SubUpdatable(subs, categories, id, categoryId, code, name);
      if ok {
        SubUpdateKeeps(subs, categories, id, categoryId, code, name, isActive, now);
        subs := SetSub(subs, id, categoryId, code, name, isActive, now);
      }
    }

    /** `DELETE FROM category_subs WHERE id IN ids RETURNING id`: nothing references a sub-category. */
    method DeleteSubs(ids: seq<Uuid>) returns (deleted: seq<Uuid>)
      requires Valid()
      modifies this
      ensures Valid()
      ensures subs == Select(old(subs), Some(Unlisted(SubKey, ids)))
      ensures deleted == KeysOf(Select(old(subs), Some(Listed(SubKey, ids))), SubKey)
      ensures categories == old(categories) && roles == old(roles)
    {
      SubDeleteKeeps(subs, categories, ids);
      deleted := KeysOf(Select(subs, Some(Listed(SubKey, ids))), SubKey);
      subs := Select(subs, Some(Unlisted(SubKey, ids)));
    }

    /** `INSERT INTO roles ... RETURNING *`: refused only on a repeated id. */
    method InsertRole(row: Role) returns (ok: bool)
      requires Valid()
      modifies this
      ensures Valid()
      ensures ok == RoleInsertable(old(roles), row)
      ensures roles == if ok then old(roles) + [row] else old(roles)
      ensures categories == old(categories) && subs == old(subs)
    {
      ok := RoleInsertable(roles, row);
      if ok {
        roles := roles + [row];
      }
    }

    /** `UPDATE roles SET code, name, def_path, updated_at WHERE id = id`. */
    method UpdateRole(id: Uuid, code: string, name: string, defPath: string, now: Timestamp)
      requires Valid()
      modifies this
      ensures Valid()
      ensures roles == SetRole(old(roles), id, code, name, defPath, now)
      ensures categories == old(categories) && subs == old(subs)
    {
      roles := SetRole(roles, id, code, name, defPath, now);
    }

    /** `DELETE FROM roles WHERE id IN ids RETURNING id`. */
    method DeleteRoles(ids: seq<Uuid>) returns (deleted: seq<Uuid>)
      requires Valid()
      modifies this
      ensures Valid()
      ensures roles == Select(old(roles), Some(Unlisted(RoleKey, ids)))
      ensures deleted == KeysOf(Select(old(roles), Some(Listed(RoleKey, ids))), RoleKey)
      ensures categories == old(categories) && subs == old(subs)
    {
      SelectKeepsDistinct(roles, Unlisted(RoleKey, ids), (r: Role) => r.id);
      deleted := KeysOf(Select(roles, Some(Listed(RoleKey, ids))), RoleKey);
      roles := Select(roles, Some(Unlisted(RoleKey, ids)));
    }
  }
}
